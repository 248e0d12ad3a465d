/** The C array text that src/generate_resources.cpp writes into
    embedded_resources.cpp for each resource: every byte as a two-digit
    lowercase hex literal, a comma after every byte but the last, sixteen
    bytes per line with a four-space indent, and a decimal size constant. */
module ResourceEmitter {
  import opened Wrappers
  import opened Text
  import opened TaskModel

  // ---------------------------------------------------------------------
  // Hex tokens

  predicate IsLowerHex(c: char) {
    '0' <= c <= '9' || 'a' <= c <= 'f'
  }

  function HexDigit(d: nat): (c: char)
    requires d < 16
    ensures IsLowerHex(c)
  {
    if d < 10 then ('0' as int + d) as char else ('a' as int + d - 10) as char
  }

  function HexValue(c: char): (d: nat)
    requires IsLowerHex(c)
    ensures d < 16
  {
    if c <= '9' then c as int - '0' as int else c as int - 'a' as int + 10
  }

  lemma HexDigitValue(d: nat)
    requires d < 16
    ensures HexValue(HexDigit(d)) == d
  {
  }

  /** `"0x" << hex << setfill('0') << setw(2) << (int)data[i]`. */
  function HexToken(b: byte): (s: string)
    ensures |s| == 4 && s[0] == '0' && s[1] == 'x' && IsLowerHex(s[2]) && IsLowerHex(s[3])
    ensures 16 * HexValue(s[2]) + HexValue(s[3]) == b as int
  {
    HexDigitValue(b as int / 16);
    HexDigitValue(b as int % 16);
    "0x" + [HexDigit(b as int / 16), HexDigit(b as int % 16)]
  }

  // ---------------------------------------------------------------------
  // The array body

  const INDENT: string := "    "

  /** What one iteration of the loop writes for byte i. */
  function Piece(data: seq<byte>, i: nat): string
    requires i < |data|
  {
    (if i % 16 == 0 then INDENT else []) +
    HexToken(data[i]) +
    (if i < |data| - 1 then "," else []) +
    (if i % 16 == 15 then "\n" else [])
  }

  /** What the loop writes for bytes i.. to the end. */
  function PiecesFrom(data: seq<byte>, i: nat): string
    requires i <= |data|
    decreases |data| - i
  {
    if i == |data| then [] else Piece(data, i) + PiecesFrom(data, i + 1)
  }

  /** The text between "[] = {\n" and "};": the loop's output plus the closing
      newline of a last line that holds fewer than sixteen bytes. */
  function ArrayBody(data: seq<byte>): string {
    PiecesFrom(data, 0) + (if |data| % 16 != 0 then "\n" else [])
  }

  /** One iteration of the loop of lines 74-85: the indent at the start of a
      line, the token, the comma and the end of a full line. */
  method AppendPiece(out: string, data: seq<byte>, i: nat) returns (r: string)
    requires i < |data|
    ensures r == out + Piece(data, i)
  {
    r := out;
    if i % 16 == 0 {
      r := r + INDENT;
    }
    r := r + HexToken(data[i]);
    if i < |data| - 1 {
      r := r + ",";
    }
    if i % 16 == 15 {
      r := r + "\n";
    }
  }

  lemma PiecesStep(out: string, data: seq<byte>, i: nat)
    requires i < |data|
    ensures (out + Piece(data, i)) + PiecesFrom(data, i + 1) == out + PiecesFrom(data, i)
  {
  }

  /** The loop of lines 74-85 and the closing newline of lines 84-85. */
  method EmitArrayBody(data: seq<byte>) returns (out: string)
    ensures out == ArrayBody(data)
  {
    out := [];
    var i := 0;
    while i < |data|
      invariant 0 <= i <= |data|
      invariant out + PiecesFrom(data, i) == PiecesFrom(data, 0)
    {
      PiecesStep(out, data, i);
      out := AppendPiece(out, data, i);
      i := i + 1;
    }
    if |data| % 16 != 0 {
      out := out + "\n";
    }
  }

  // ---------------------------------------------------------------------
  // Counting commas and line ends

  function Count(s: string, c: char): (n: nat)
    ensures n <= |s|
  {
    if s == [] then 0 else (if s[0] == c then 1 else 0) + Count(s[1..], c)
  }

  lemma {:induction false} CountAppend(a: string, b: string, c: char)
    ensures Count(a + b, c) == Count(a, c) + Count(b, c)
  {
    if a != [] {
      assert (a + b)[1..] == a[1..] + b;
      CountAppend(a[1..], b, c);
    } else {
      assert a + b == b;
    }
  }

  lemma {:induction false} CountAbsent(s: string, c: char)
    requires forall k :: 0 <= k < |s| ==> s[k] != c
    ensures Count(s, c) == 0
  {
    if s != [] {
      CountAbsent(s[1..], c);
    }
  }

  lemma PieceCounts(data: seq<byte>, i: nat)
    requires i < |data|
    ensures Count(Piece(data, i), ',') == if i < |data| - 1 then 1 else 0
    ensures Count(Piece(data, i), '\n') == if i % 16 == 15 then 1 else 0
  {
    var indent: string := if i % 16 == 0 then INDENT else [];
    var token := HexToken(data[i]);
    var comma: string := if i < |data| - 1 then "," else [];
    var newline: string := if i % 16 == 15 then "\n" else [];
    assert Piece(data, i) == indent + token + comma + newline;
    CountAppend(indent + token + comma, newline, ',');
    CountAppend(indent + token, comma, ',');
    CountAppend(indent, token, ',');
    CountAppend(indent + token + comma, newline, '\n');
    CountAppend(indent + token, comma, '\n');
    CountAppend(indent, token, '\n');
    TokenCounts(data[i]);
    CountAbsent(indent, ',');
    CountAbsent(indent, '\n');
    if comma != [] {
      CountSingle(',', ',');
      CountSingle(',', '\n');
    }
    if newline != [] {
      CountSingle('\n', ',');
      CountSingle('\n', '\n');
    }
  }

  /** A hex token holds neither a comma nor a line end. */
  lemma TokenCounts(b: byte)
    ensures Count(HexToken(b), ',') == 0 && Count(HexToken(b), '\n') == 0
  {
    var s := HexToken(b);
    assert forall k :: 0 <= k < |s| ==> IsLowerHex(s[k]) || s[k] == 'x';
    CountAbsent(s, ',');
    CountAbsent(s, '\n');
  }

  lemma CountSingle(c: char, d: char)
    ensures Count([c], d) == if c == d then 1 else 0
  {
    assert [c][1..] == [];
  }

  lemma {:induction false} PiecesFromCounts(data: seq<byte>, i: nat)
    requires i <= |data|
    ensures Count(PiecesFrom(data, i), ',') == if i < |data| then |data| - 1 - i else 0
    ensures Count(PiecesFrom(data, i), '\n') == |data| / 16 - i / 16
    decreases |data| - i
  {
    if i < |data| {
      PiecesFromCounts(data, i + 1);
      PieceCounts(data, i);
      CountAppend(Piece(data, i), PiecesFrom(data, i + 1), ',');
      CountAppend(Piece(data, i), PiecesFrom(data, i + 1), '\n');
      assert (i + 1) / 16 == i / 16 + (if i % 16 == 15 then 1 else 0);
    }
  }

  /** A comma follows every byte except the last. */
  lemma CommaCount(data: seq<byte>)
    ensures Count(ArrayBody(data), ',') == if data == [] then 0 else |data| - 1
  {
    PiecesFromCounts(data, 0);
    CountAppend(PiecesFrom(data, 0), if |data| % 16 != 0 then "\n" else [], ',');
  }

  /** The body has one line per sixteen bytes, the last possibly shorter. */
  lemma LineCount(data: seq<byte>)
    ensures Count(ArrayBody(data), '\n') == (|data| + 15) / 16
  {
    PiecesFromCounts(data, 0);
    CountAppend(PiecesFrom(data, 0), if |data| % 16 != 0 then "\n" else [], '\n');
  }

  /** "};" always starts a line of its own. */
  lemma {:induction false} BodyEndsLine(data: seq<byte>)
    requires data != []
    ensures ArrayBody(data)[|ArrayBody(data)| - 1] == '\n'
  {
    if |data| % 16 == 0 {
      LastPieceEndsLine(data, 0);
    }
  }

  lemma {:induction false} LastPieceEndsLine(data: seq<byte>, i: nat)
    requires i < |data| && |data| % 16 == 0
    ensures PiecesFrom(data, i) != [] && PiecesFrom(data, i)[|PiecesFrom(data, i)| - 1] == '\n'
    decreases |data| - i
  {
    if i + 1 < |data| {
      LastPieceEndsLine(data, i + 1);
    } else {
      assert i % 16 == 15;
      assert PiecesFrom(data, i) == Piece(data, i);
    }
  }

  // ---------------------------------------------------------------------
  // Reading the tokens back

  predicate IsSeparator(c: char) {
    c == ' ' || c == ',' || c == '\n'
  }

  function Prepend(b: byte, r: Option<seq<byte>>): Option<seq<byte>> {
    match r
    case None => None
    case Some(bs) => Some([b] + bs)
  }

  /** What a C compiler reads from the body: hex literals between blanks,
      commas and line ends, in order; None on anything else. */
  function ReadHexBytes(s: string): Option<seq<byte>>
    decreases |s|
  {
    if s == [] then Some([])
    else if IsSeparator(s[0]) then ReadHexBytes(s[1..])
    else if 4 <= |s| && s[0] == '0' && s[1] == 'x' && IsLowerHex(s[2]) && IsLowerHex(s[3]) then
      Prepend((16 * HexValue(s[2]) + HexValue(s[3])) as byte, ReadHexBytes(s[4..]))
    else None
  }

  lemma {:induction false} SkipSeparators(sep: string, rest: string)
    requires forall k :: 0 <= k < |sep| ==> IsSeparator(sep[k])
    ensures ReadHexBytes(sep + rest) == ReadHexBytes(rest)
  {
    if sep != [] {
      assert (sep + rest)[1..] == sep[1..] + rest;
      SkipSeparators(sep[1..], rest);
    } else {
      assert sep + rest == rest;
    }
  }

  /** A hex token is read as its byte. */
  lemma TokenReads(b: byte, rest: string)
    ensures ReadHexBytes(HexToken(b) + rest) == Prepend(b, ReadHexBytes(rest))
  {
    var s := HexToken(b) + rest;
    assert s[0] == '0' && s[1] == 'x' && s[2] == HexToken(b)[2] && s[3] == HexToken(b)[3];
    assert s[4..] == rest;
  }

  lemma PieceReads(data: seq<byte>, i: nat, rest: string)
    requires i < |data|
    ensures ReadHexBytes(Piece(data, i) + rest) == Prepend(data[i], ReadHexBytes(rest))
  {
    var indent: string := if i % 16 == 0 then INDENT else [];
    var token := HexToken(data[i]);
    var comma: string := if i < |data| - 1 then "," else [];
    var newline: string := if i % 16 == 15 then "\n" else [];
    var tail := comma + newline;
    var after := token + (tail + rest);
    assert Piece(data, i) == indent + token + comma + newline;
    Regroup(indent, token, comma, newline, rest);
    assert ReadHexBytes(indent + after) == ReadHexBytes(after) by {
      SkipSeparators(indent, after);
    }
    assert ReadHexBytes(after) == Prepend(data[i], ReadHexBytes(tail + rest)) by {
      TokenReads(data[i], tail + rest);
    }
    assert ReadHexBytes(tail + rest) == ReadHexBytes(rest) by {
      SkipSeparators(tail, rest);
    }
  }

  lemma Assoc<T>(a: seq<T>, b: seq<T>, c: seq<T>)
    ensures (a + b) + c == a + (b + c)
  {
  }

  lemma Regroup<T>(a: seq<T>, b: seq<T>, c: seq<T>, d: seq<T>, e: seq<T>)
    ensures a + b + c + d + e == a + (b + ((c + d) + e))
  {
  }

  /** What the reader makes of d followed by text that reads as r. */
  function AppendRead(d: seq<byte>, r: Option<seq<byte>>): Option<seq<byte>> {
    match r
    case None => None
    case Some(bs) => Some(d + bs)
  }

  lemma {:induction false} PiecesFromReads(data: seq<byte>, i: nat, rest: string)
    requires i <= |data|
    ensures ReadHexBytes(PiecesFrom(data, i) + rest) == AppendRead(data[i..], ReadHexBytes(rest))
    decreases |data| - i
  {
    if i == |data| {
      NoPiecesRead(data, rest);
    } else {
      PiecesFromReads(data, i + 1, rest);
      OnePieceMoreRead(data, i, rest);
    }
  }

  lemma NoPiecesRead(data: seq<byte>, rest: string)
    ensures ReadHexBytes(PiecesFrom(data, |data|) + rest) == AppendRead(data[|data|..], ReadHexBytes(rest))
  {
    assert PiecesFrom(data, |data|) + rest == rest;
    assert data[|data|..] == [];
    EmptyAppendRead(ReadHexBytes(rest));
  }

  /** The induction step: byte i's piece reads as data[i] in front of the rest. */
  lemma OnePieceMoreRead(data: seq<byte>, i: nat, rest: string)
    requires i < |data|
    requires ReadHexBytes(PiecesFrom(data, i + 1) + rest) == AppendRead(data[i + 1..], ReadHexBytes(rest))
    ensures ReadHexBytes(PiecesFrom(data, i) + rest) == AppendRead(data[i..], ReadHexBytes(rest))
  {
    var later := PiecesFrom(data, i + 1) + rest;
    assert PiecesFrom(data, i) + rest == Piece(data, i) + later by {
      Assoc(Piece(data, i), PiecesFrom(data, i + 1), rest);
    }
    assert ReadHexBytes(Piece(data, i) + later) == Prepend(data[i], ReadHexBytes(later)) by {
      PieceReads(data, i, later);
    }
    PrependAppendRead(data, i, ReadHexBytes(rest));
  }

  lemma EmptyAppendRead(r: Option<seq<byte>>)
    ensures AppendRead([], r) == r
  {
    match r
    case None =>
    case Some(bs) => assert [] + bs == bs;
  }

  /** One more byte in front of what the rest of the data reads as. */
  lemma PrependAppendRead(data: seq<byte>, i: nat, r: Option<seq<byte>>)
    requires i < |data|
    ensures Prepend(data[i], AppendRead(data[i + 1..], r)) == AppendRead(data[i..], r)
  {
    match r
    case None =>
    case Some(bs) => ConsSlice(data, i, bs);
  }

  lemma ConsSlice<T>(s: seq<T>, i: nat, b: seq<T>)
    requires i < |s|
    ensures s[i..] + b == [s[i]] + (s[i + 1..] + b)
  {
    assert s[i..] == [s[i]] + s[i + 1..];
  }

  /** The hex literals of the body, read in order, are the input bytes. */
  lemma ArrayBodyReadsBack(data: seq<byte>)
    ensures ReadHexBytes(ArrayBody(data)) == Some(data)
  {
    var closing: string := if |data| % 16 != 0 then "\n" else [];
    SkipSeparators(closing, []);
    assert closing + [] == closing;
    PiecesFromReads(data, 0, closing);
    assert data[0..] + [] == data;
    assert AppendRead(data[0..], Some([])) == Some(data);
  }

  // ---------------------------------------------------------------------
  // The sections of embedded_resources.cpp

  /** One entry of the resource list, with the bytes readBinaryFile returned
      for it (none when the file cannot be opened). */
  datatype Resource = Resource(varName: string, description: string, data: seq<byte>)

  function SizeLine(varName: string, n: nat): string {
    "const size_t EmbeddedResources::" + varName + "_size = " + DecimalString(n) + ";\n\n"
  }

  /** The text for one resource: nothing for empty data, else the comment,
      the array and the size constant. */
  function Section(r: Resource): (s: string)
    ensures s == [] <==> r.data == []
  {
    if r.data == [] then []
    else
      "// " + r.description + "\n" +
      "const unsigned char EmbeddedResources::" + r.varName + "[] = {\n" +
      ArrayBody(r.data) + "};\n\n" +
      SizeLine(r.varName, |r.data|)
  }

  function Sections(rs: seq<Resource>): string {
    if rs == [] then [] else Sections(rs[..|rs| - 1]) + Section(rs[|rs| - 1])
  }

  lemma SectionsStep(rs: seq<Resource>, k: nat)
    requires k < |rs|
    ensures Sections(rs[..k + 1]) == Sections(rs[..k]) + Section(rs[k])
  {
    assert rs[..k + 1][..k] == rs[..k];
  }

  /** Lines 72-87 for one resource with data. */
  method AppendSection(out: string, r: Resource) returns (o: string)
    requires r.data != []
    ensures o == out + Section(r)
  {
    var body := EmitArrayBody(r.data);
    var section := "// " + r.description + "\n" +
      "const unsigned char EmbeddedResources::" + r.varName + "[] = {\n" +
      body + "};\n\n" +
      SizeLine(r.varName, |r.data|);
    o := out + section;
  }

  /** The resource loop of lines 66-88, which skips resources without data. */
  method EmitResources(rs: seq<Resource>) returns (out: string)
    ensures out == Sections(rs)
  {
    out := [];
    for k := 0 to |rs|
      invariant out == Sections(rs[..k])
    {
      SectionsStep(rs, k);
      if rs[k].data == [] {
        continue;
      }
      out := AppendSection(out, rs[k]);
    }
    assert rs[..|rs|] == rs;
  }

  /** Resources with empty data leave no trace in the output. */
  lemma {:induction false} EmptyResourcesVanish(rs: seq<Resource>, r: Resource)
    requires r.data == []
    ensures Sections(rs + [r]) == Sections(rs)
    ensures Sections([r] + rs) == Sections(rs)
    decreases |rs|
  {
    assert (rs + [r])[..|rs|] == rs;
    if rs != [] {
      var front := rs[..|rs| - 1];
      assert ([r] + rs)[..|rs|] == [r] + front;
      EmptyResourcesVanish(front, r);
    } else {
      assert [r] + rs == [r];
      assert [r][..0] == [];
    }
  }

  /** The size constant is written in decimal and denotes the number of bytes. */
  lemma SizeLineDenotesLength(varName: string, n: nat)
    ensures var prefix := "const size_t EmbeddedResources::" + varName + "_size = ";
      var digits := SizeLine(varName, n)[|prefix|..|prefix| + |DecimalString(n)|];
      AllDigits(digits) && DecimalValue(digits) == n &&
      SizeLine(varName, n)[|prefix| + |DecimalString(n)|] == ';'
  {
    var prefix := "const size_t EmbeddedResources::" + varName + "_size = ";
    assert SizeLine(varName, n) == prefix + DecimalString(n) + ";\n\n";
    assert SizeLine(varName, n)[|prefix|..|prefix| + |DecimalString(n)|] == DecimalString(n);
    DecimalRoundTrip(n);
  }
}
