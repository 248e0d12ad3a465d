/** The domain rules of src/SchedulerApp.cpp with the GTK layer removed: the
    labels and status strings the views show, the reminder-offset parser and the
    checks of the add-task dialog, the reminder entry normaliser and the
    "task belongs to this day" filter. Times are seconds since the epoch and
    `now` and the start of a day are parameters. */
module SchedulerRules {
  import opened Wrappers
  import opened Text
  import opened TaskModel
  import TaskCodec
  import TaskStore

  // ---------------------------------------------------------------------
  // Labels

  const HIGH_LABEL: string := "高"
  const MEDIUM_LABEL: string := "中"
  const LOW_LABEL: string := "低"
  const UNKNOWN_LABEL: string := "未知"
  const STUDY_LABEL: string := "学习"
  const ENTERTAINMENT_LABEL: string := "娱乐"
  const LIFE_LABEL: string := "生活"

  /** priority_to_string: a distinct label per named priority, "未知" otherwise. */
  function PriorityLabel(p: Priority): (r: string)
    ensures p == HIGH <==> r == HIGH_LABEL
    ensures p == MEDIUM <==> r == MEDIUM_LABEL
    ensures p == LOW <==> r == LOW_LABEL
    ensures !IsNamedPriority(p) <==> r == UNKNOWN_LABEL
  {
    if p == HIGH then HIGH_LABEL
    else if p == MEDIUM then MEDIUM_LABEL
    else if p == LOW then LOW_LABEL
    else UNKNOWN_LABEL
  }

  /** category_to_string: the custom name exactly for OTHER, a fixed label for
      the other named categories and "未知" outside the enumeration. */
  function CategoryLabel(t: Task): (r: string)
    ensures t.category == OTHER ==> r == t.customCategory
    ensures t.category == STUDY ==> r == STUDY_LABEL
    ensures t.category == ENTERTAINMENT ==> r == ENTERTAINMENT_LABEL
    ensures t.category == LIFE ==> r == LIFE_LABEL
    ensures !IsNamedCategory(t.category) ==> r == UNKNOWN_LABEL
  {
    if t.category == STUDY then STUDY_LABEL
    else if t.category == ENTERTAINMENT then ENTERTAINMENT_LABEL
    else if t.category == LIFE then LIFE_LABEL
    else if t.category == OTHER then t.customCategory
    else UNKNOWN_LABEL
  }

  // ---------------------------------------------------------------------
  // Status strings

  const NOT_STARTED: string := "未开始"
  const IN_PROGRESS: string := "进行中"
  const FINISHED: string := "已结束"

  /** The end of a task: its start plus its duration in minutes. */
  function EndTime(t: Task): int {
    t.startTime + t.duration * 60
  }

  /** get_task_status: three exclusive and exhaustive cases. */
  function TaskStatus(t: Task, now: int): (r: string)
    ensures r == NOT_STARTED <==> now < t.startTime
    ensures r == IN_PROGRESS <==> t.startTime <= now < EndTime(t)
    ensures r == FINISHED <==> t.startTime <= now && EndTime(t) <= now
  {
    if now < t.startTime then NOT_STARTED
    else if now < EndTime(t) then IN_PROGRESS
    else FINISHED
  }

  const NO_REMINDER: string := "不提醒"
  const REMINDED: string := "已提醒"
  const NOT_YET_REMINDED: string := "未提醒"

  /** get_reminder_status: no reminder wins over the reminded flag. */
  function ReminderStatus(t: Task): (r: string)
    ensures r == NO_REMINDER <==> !HasReminder(t)
    ensures r == REMINDED <==> HasReminder(t) && t.reminded
    ensures r == NOT_YET_REMINDED <==> HasReminder(t) && !t.reminded
  {
    if !HasReminder(t) then NO_REMINDER
    else if t.reminded then REMINDED
    else NOT_YET_REMINDED
  }

  // ---------------------------------------------------------------------
  // The reminder-offset parser of the add dialog

  const MINUTES_AGO: string := "分钟前"
  const HOURS_AGO: string := "小时前"
  const DAYS_AGO: string := "天前"

  /** The pattern `(\d+)\s*suffix` matches at p. Every suffix used here starts
      with a character that is neither a digit nor white space, so the greedy
      digit and white-space runs never give anything back. */
  predicate MatchesAt(s: string, suffix: string, p: nat) {
    p < |s| && IsDigit(s[p]) && suffix <= s[SpacesEnd(s, DigitsEnd(s, p))..]
  }

  /** regex_search: the leftmost position at or after `from` where the pattern matches. */
  function FindOffsetMatch(s: string, suffix: string, from: nat): (r: Option<nat>)
    requires from <= |s|
    ensures r.Some? ==> from <= r.value < |s| && MatchesAt(s, suffix, r.value)
    ensures r.Some? ==> forall k :: from <= k < r.value ==> !MatchesAt(s, suffix, k)
    ensures r.None? ==> forall k :: from <= k < |s| ==> !MatchesAt(s, suffix, k)
    decreases |s| - from
  {
    if from == |s| then None
    else if MatchesAt(s, suffix, from) then Some(from)
    else FindOffsetMatch(s, suffix, from + 1)
  }

  /** The number in the capture group of a match at p. */
  function CapturedNumber(s: string, p: nat): nat
    requires p < |s|
  {
    DecimalValue(s[p..DigitsEnd(s, p)])
  }

  /** The arithmetic of `stoi(...) * 60`: an `int` product, which wraps on the
      usual two's complement builds, or the exact product. */
  datatype Arithmetic = Int32Wrap | Exact

  function Wrap32(x: int): (r: int)
    ensures InInt32(r)
    ensures InInt32(x) ==> r == x
  {
    (x + 0x8000_0000) % 0x1_0000_0000 - 0x8000_0000
  }

  /** A value less than 2^32 above INT_MAX wraps exactly once. */
  lemma WrapOnce(x: int)
    requires 0x8000_0000 <= x < 0x1_8000_0000
    ensures Wrap32(x) == x - 0x1_0000_0000
  {
    var y := x + 0x8000_0000;
    assert 0x1_0000_0000 <= y < 0x2_0000_0000;
    assert y % 0x1_0000_0000 == y - 0x1_0000_0000;
  }

  function Times(a: int, b: int, arith: Arithmetic): int {
    match arith
    case Int32Wrap => Wrap32(a * b)
    case Exact => a * b
  }

  /** What the reminder text asks for: a reminder `seconds` before the start,
      no reminder (a bare number that is not positive), or an exception. */
  datatype Offset = Before(seconds: int) | NoOffset | Unparsable

  /** A pattern match converted by stoi: it throws above INT_MAX. */
  function CapturedOffset(s: string, p: nat, unit: int, arith: Arithmetic): (r: Offset)
    requires p < |s|
    ensures r != NoOffset
    ensures r.Before? <==> InInt32(CapturedNumber(s, p))
    ensures r.Before? && arith == Exact ==> r.seconds == CapturedNumber(s, p) * unit
    ensures r.Before? && arith == Int32Wrap ==>
      InInt32(r.seconds) && (InInt32(CapturedNumber(s, p) * unit) ==> r.seconds == CapturedNumber(s, p) * unit)
  {
    var n := CapturedNumber(s, p);
    if InInt32(n) then Before(Times(n, unit, arith)) else Unparsable
  }

  /** None of the three offset patterns occurs in the text. */
  predicate NoPatternMatches(text: string) {
    FindOffsetMatch(text, MINUTES_AGO, 0).None? && FindOffsetMatch(text, HOURS_AGO, 0).None? &&
    FindOffsetMatch(text, DAYS_AGO, 0).None?
  }

  /** The three patterns in order, then stoi of the whole text. */
  function ReminderOffsetWith(text: string, arith: Arithmetic): (r: Offset)
    ensures FindOffsetMatch(text, MINUTES_AGO, 0).Some? ==>
      r == CapturedOffset(text, FindOffsetMatch(text, MINUTES_AGO, 0).value, 60, arith)
    ensures FindOffsetMatch(text, MINUTES_AGO, 0).None? && FindOffsetMatch(text, HOURS_AGO, 0).Some? ==>
      r == CapturedOffset(text, FindOffsetMatch(text, HOURS_AGO, 0).value, 3600, arith)
    ensures var days := FindOffsetMatch(text, DAYS_AGO, 0);
      FindOffsetMatch(text, MINUTES_AGO, 0).None? && FindOffsetMatch(text, HOURS_AGO, 0).None? && days.Some? ==>
      r == CapturedOffset(text, days.value, 86400, arith)
    ensures r.NoOffset? <==> NoPatternMatches(text) && Stoi(text).Some? && Stoi(text).value <= 0
    ensures NoPatternMatches(text) ==> (r.Unparsable? <==> Stoi(text).None?)
    ensures NoPatternMatches(text) && r.Before? ==>
      Stoi(text).Some? && 0 < Stoi(text).value && r.seconds == Times(Stoi(text).value, 60, arith)
    ensures r.Before? && arith == Exact ==> 0 <= r.seconds
  {
    match FindOffsetMatch(text, MINUTES_AGO, 0)
    case Some(p) => CapturedOffset(text, p, 60, arith)
    case None =>
      match FindOffsetMatch(text, HOURS_AGO, 0)
      case Some(p) => CapturedOffset(text, p, 3600, arith)
      case None =>
        match FindOffsetMatch(text, DAYS_AGO, 0)
        case Some(p) => CapturedOffset(text, p, 86400, arith)
        case None =>
          match Stoi(text)
          case None => Unparsable
          case Some(m) => if m > 0 then Before(Times(m, 60, arith)) else NoOffset
  }

  /** The reminder's task fields as the dialog sets them. */
  datatype ReminderSetting = ReminderSetting(time: int, option: string)

  function ParseReminderWith(text: string, start: int, arith: Arithmetic): (r: ReminderSetting)
    ensures text == [] || text == NO_REMINDER ==> r == ReminderSetting(0, NO_REMINDER)
    ensures r.option == text || r.option == NO_REMINDER
    ensures r.time != 0 ==> r.option == text
    ensures text != [] && text != NO_REMINDER ==>
      (r.option == NO_REMINDER <==> ReminderOffsetWith(text, arith).Unparsable?)
    ensures text != [] && text != NO_REMINDER && ReminderOffsetWith(text, arith).Before? ==>
      r.time == start - ReminderOffsetWith(text, arith).seconds
    ensures !ReminderOffsetWith(text, arith).Before? ==> r.time == 0
  {
    if text == [] || text == NO_REMINDER then ReminderSetting(0, NO_REMINDER)
    else
      match ReminderOffsetWith(text, arith)
      case Before(seconds) => ReminderSetting(start - seconds, text)
      case NoOffset => ReminderSetting(0, text)
      case Unparsable => ReminderSetting(0, NO_REMINDER)
  }

  /** The exact offset the text asks for overflows int. */
  predicate OffsetOverflows(text: string) {
    ReminderOffsetWith(text, Exact).Before? && !InInt32(ReminderOffsetWith(text, Exact).seconds)
  }

  /** The parser as compiled, with `int` products that wrap. It keeps the same
      option text as the exact reading, and sets the same time unless the
      exact offset overflows int. */
  function ParseReminderAsWritten(text: string, start: int): (r: ReminderSetting)
    ensures r.option == ParseReminder(text, start).option
    ensures !OffsetOverflows(text) ==> r == ParseReminder(text, start)
  {
    ParseReminderWith(text, start, Int32Wrap)
  }

  /** The parser with the products the text denotes; the dialog below uses this one. */
  function ParseReminder(text: string, start: int): ReminderSetting {
    ParseReminderWith(text, start, Exact)
  }

  // Facts about the digit and white-space scanners

  /** A suffix whose characters are neither digits nor white space. */
  predicate PlainSuffix(suffix: string) {
    suffix != [] && forall i :: 0 <= i < |suffix| ==> !IsDigit(suffix[i]) && !IsSpace(suffix[i])
  }

  lemma SuffixesArePlain()
    ensures PlainSuffix(MINUTES_AGO) && PlainSuffix(HOURS_AGO) && PlainSuffix(DAYS_AGO)
    ensures MINUTES_AGO[0] != HOURS_AGO[0] && MINUTES_AGO[0] != DAYS_AGO[0] && HOURS_AGO[0] != DAYS_AGO[0]
  {
  }

  /** In `digits ++ suffix`, the pattern for `other` matches exactly when `other`
      is a prefix of `suffix`, and then at position 0 with the digits' value. */
  lemma NumberThenSuffix(n: nat, suffix: string, other: string)
    requires PlainSuffix(suffix) && other != []
    ensures var s := DecimalString(n) + suffix;
      (other <= suffix ==> FindOffsetMatch(s, other, 0) == Some(0) && CapturedNumber(s, 0) == n) &&
      (!(other <= suffix) ==> FindOffsetMatch(s, other, 0).None?)
  {
    var ds := DecimalString(n);
    var s := ds + suffix;
    assert s[..|ds|] == ds;
    forall k | 0 <= k < |ds|
      ensures DigitsEnd(s, k) == |ds| && SpacesEnd(s, |ds|) == |ds| && s[|ds|..] == suffix
    {
      assert s[k..|ds|] == ds[k..];
      assert s[|ds|] == suffix[0];
      DigitsEndOfRun(s, k, |ds|);
      assert s[|ds|..] == suffix;
    }
    forall k | |ds| <= k < |s| ensures !IsDigit(s[k]) {
      assert s[k] == suffix[k - |ds|];
    }
    assert s[0..DigitsEnd(s, 0)] == ds;
    DecimalRoundTrip(n);
  }

  /** "N分钟前", as the normaliser and the preset options write it, gives a
      reminder N minutes before the start. */
  lemma MinutesTextReadsBack(n: nat, start: int)
    requires n < 0x8000_0000
    ensures ParseReminder(DecimalString(n) + MINUTES_AGO, start) ==
      ReminderSetting(start - 60 * n, DecimalString(n) + MINUTES_AGO)
  {
    SuffixesArePlain();
    NumberThenSuffix(n, MINUTES_AGO, MINUTES_AGO);
    assert (DecimalString(n) + MINUTES_AGO)[0] != NO_REMINDER[0];
  }

  /** "N小时前" gives a reminder N hours before the start. */
  lemma HoursTextReadsBack(n: nat, start: int)
    requires n < 0x8000_0000
    ensures ParseReminder(DecimalString(n) + HOURS_AGO, start) ==
      ReminderSetting(start - 3600 * n, DecimalString(n) + HOURS_AGO)
  {
    SuffixesArePlain();
    NumberThenSuffix(n, HOURS_AGO, MINUTES_AGO);
    NumberThenSuffix(n, HOURS_AGO, HOURS_AGO);
    assert (DecimalString(n) + HOURS_AGO)[0] != NO_REMINDER[0];
  }

  /** "N天前" gives a reminder N days before the start, with the arithmetic chosen. */
  lemma DaysTextReadsBack(n: nat, start: int, arith: Arithmetic)
    requires n < 0x8000_0000
    ensures ParseReminderWith(DecimalString(n) + DAYS_AGO, start, arith) ==
      ReminderSetting(start - Times(n, 86400, arith), DecimalString(n) + DAYS_AGO)
  {
    SuffixesArePlain();
    NumberThenSuffix(n, DAYS_AGO, MINUTES_AGO);
    NumberThenSuffix(n, DAYS_AGO, HOURS_AGO);
    NumberThenSuffix(n, DAYS_AGO, DAYS_AGO);
    assert (DecimalString(n) + DAYS_AGO)[0] != NO_REMINDER[0];
  }

  /** A number too large for stoi in any of the three forms is the exception path. */
  lemma OverflowingCountIsUnparsable(n: nat, suffix: string, start: int, arith: Arithmetic)
    requires suffix == MINUTES_AGO || suffix == HOURS_AGO || suffix == DAYS_AGO
    requires 0x8000_0000 <= n
    ensures ParseReminderWith(DecimalString(n) + suffix, start, arith) == ReminderSetting(0, NO_REMINDER)
  {
    SuffixesArePlain();
    NumberThenSuffix(n, suffix, MINUTES_AGO);
    NumberThenSuffix(n, suffix, HOURS_AGO);
    NumberThenSuffix(n, suffix, DAYS_AGO);
    assert (DecimalString(n) + suffix)[0] != NO_REMINDER[0];
  }

  /** The pattern's \s* lets blanks stand between the number and the suffix. */
  lemma BlankBeforeSuffix(start: int)
    ensures ParseReminder("5 分钟前", start) == ReminderSetting(start - 300, "5 分钟前")
  {
    var s := "5 分钟前";
    assert DigitsEnd(s, 1) == 1;
    assert DigitsEnd(s, 0) == 1;
    assert SpacesEnd(s, 2) == 2;
    assert SpacesEnd(s, 1) == 2;
    assert s[2..] == MINUTES_AGO;
    assert MatchesAt(s, MINUTES_AGO, 0);
    assert s[0..1] == "5";
    assert CapturedNumber(s, 0) == 5;
  }

  /** The minutes pattern is tried first: "1小时30分钟前" is 30 minutes, not one hour. */
  lemma MinutesPatternComesFirst(start: int)
    ensures ParseReminder("1小时30分钟前", start) == ReminderSetting(start - 1800, "1小时30分钟前")
  {
    MinutesMatchAfterHours();
    var s := "1小时30分钟前";
    assert s != NO_REMINDER by { assert s[0] != NO_REMINDER[0]; }
    assert CapturedOffset(s, 3, 60, Exact) == Before(1800);
  }

  /** In "1小时30分钟前" the minutes pattern first matches at "30". */
  lemma MinutesMatchAfterHours()
    ensures FindOffsetMatch("1小时30分钟前", MINUTES_AGO, 0) == Some(3)
    ensures CapturedNumber("1小时30分钟前", 3) == 30
  {
    var s := "1小时30分钟前";
    assert DigitsEnd(s, 1) == 1;
    assert DigitsEnd(s, 0) == 1;
    assert SpacesEnd(s, 1) == 1;
    assert !(MINUTES_AGO <= s[1..]) by { assert s[1..][0] == s[1]; }
    assert !MatchesAt(s, MINUTES_AGO, 0);
    assert DigitsEnd(s, 5) == 5;
    assert DigitsEnd(s, 4) == 5;
    assert DigitsEnd(s, 3) == 5;
    assert SpacesEnd(s, 5) == 5;
    assert s[5..] == MINUTES_AGO;
    assert MatchesAt(s, MINUTES_AGO, 3);
    assert !IsDigit(s[1]) && !IsDigit(s[2]);
    assert s[3..5] == "30";
    assert DecimalValue("30") == 30 by {
      assert "30"[..1] == "3";
    }
  }

  /** The search finds the pattern after leading text: "提前5分钟前" is 5 minutes. */
  lemma TextBeforeMatch(start: int)
    ensures ParseReminder("提前5分钟前", start) == ReminderSetting(start - 300, "提前5分钟前")
  {
    var s := "提前5分钟前";
    assert DigitsEnd(s, 3) == 3;
    assert DigitsEnd(s, 2) == 3;
    assert SpacesEnd(s, 3) == 3;
    assert s[3..] == MINUTES_AGO;
    assert MatchesAt(s, MINUTES_AGO, 2);
    assert FindOffsetMatch(s, MINUTES_AGO, 0) == Some(2);
    assert s[2..3] == "5";
    assert CapturedNumber(s, 2) == 5;
  }

  /** A bare number N: N minutes before the start when 0 < N <= INT_MAX, no
      reminder (with the text kept as the option) when N == 0, and the
      exception path when stoi overflows. */
  lemma BareNumberReadsBack(n: nat, start: int)
    ensures ParseReminder(DecimalString(n), start) ==
      if n == 0 then ReminderSetting(0, DecimalString(n))
      else if n < 0x8000_0000 then ReminderSetting(start - 60 * n, DecimalString(n))
      else ReminderSetting(0, NO_REMINDER)
  {
    var s := DecimalString(n);
    DigitsHaveNoMatch(s, MINUTES_AGO);
    DigitsHaveNoMatch(s, HOURS_AGO);
    DigitsHaveNoMatch(s, DAYS_AGO);
    DecimalTextParses(n);
    assert s[0] != NO_REMINDER[0];
  }

  /** In a text of digits alone the pattern never matches: the suffix finds nothing after the digits. */
  lemma DigitsHaveNoMatch(s: string, suffix: string)
    requires AllDigits(s) && suffix != []
    ensures FindOffsetMatch(s, suffix, 0).None?
  {
    forall k | 0 <= k < |s| ensures !MatchesAt(s, suffix, k) {
      DigitsEndOfRun(s, k, |s|);
    }
  }

  /** Text with no digit at all (and not the "no reminder" choice) is the
      exception path: no reminder, and the option is reset. */
  lemma TextWithoutDigitsIsUnparsable(text: string, start: int)
    requires text != [] && forall i :: 0 <= i < |text| ==> !IsDigit(text[i])
    ensures ParseReminder(text, start) == ReminderSetting(0, NO_REMINDER)
  {
  }

  // ---------------------------------------------------------------------
  // The add-task dialog

  /** What the dialog's widgets hold when OK is pressed. */
  datatype DialogInput = DialogInput(
    name: Bytes,
    startTime: int,
    duration: int,
    priorityText: string,
    categoryText: string,
    customCategoryText: string,
    reminderComboText: string,
    reminderComboId: string,
    reminderEntryText: string)

  /** Why the dialog refuses to build a task, in the order it checks. */
  datatype Rejection =
    | EmptyName
    | NoStartTime
    | StartNotInFuture
    | EmptyCustomCategory
    | ReminderNotAfterNow
    | ReminderNotBeforeStart

  const CUSTOM_REMINDER_ID: string := "remind_custom"

  function PriorityFromText(s: string): (p: Priority)
    ensures p == HIGH <==> s == HIGH_LABEL
    ensures p == LOW <==> s == LOW_LABEL
    ensures IsNamedPriority(p)
  {
    if s == HIGH_LABEL then HIGH else if s == LOW_LABEL then LOW else MEDIUM
  }

  function CategoryFromText(s: string): (c: Category)
    ensures c == STUDY <==> s == STUDY_LABEL
    ensures c == ENTERTAINMENT <==> s == ENTERTAINMENT_LABEL
    ensures c == LIFE <==> s == LIFE_LABEL
    ensures IsNamedCategory(c)
  {
    if s == STUDY_LABEL then STUDY
    else if s == ENTERTAINMENT_LABEL then ENTERTAINMENT
    else if s == LIFE_LABEL then LIFE
    else OTHER
  }

  /** The labels the views show read back to the same priority, and to the
      same category for the three fixed categories. */
  lemma LabelsReadBack(p: Priority, t: Task)
    ensures IsNamedPriority(p) ==> PriorityFromText(PriorityLabel(p)) == p
    ensures t.category == STUDY || t.category == ENTERTAINMENT || t.category == LIFE ==>
      CategoryFromText(CategoryLabel(t)) == t.category
  {
  }

  /** The custom entry's text when the custom option is chosen, else the combo's text. */
  function ReminderText(input: DialogInput): string {
    if input.reminderComboId == CUSTOM_REMINDER_ID then input.reminderEntryText
    else input.reminderComboText
  }

  predicate ReminderInWindow(time: int, now: int, start: int) {
    time == 0 || (now < time && time < start)
  }

  /** on_add_task_ok_button_clicked up to the call of addTask: the task it
      builds, or the first check that fails. */
  function BuildNewTaskWith(input: DialogInput, now: int, arith: Arithmetic): (r: Result<Task, Rejection>)
    ensures var setting := ParseReminderWith(ReminderText(input), input.startTime, arith);
      r.Ok? <==>
        |input.name| > 0 && input.startTime != 0 && now < input.startTime &&
        !(CategoryFromText(input.categoryText) == OTHER && input.customCategoryText == []) &&
        ReminderInWindow(setting.time, now, input.startTime)
    ensures r == Err(EmptyName) <==> |input.name| == 0
    ensures r == Err(NoStartTime) <==> |input.name| > 0 && input.startTime == 0
    ensures r == Err(StartNotInFuture) <==> |input.name| > 0 && input.startTime != 0 && input.startTime <= now
    ensures r.Ok? ==> var t := r.value;
      t.id == NOT_PERSISTED_ID && t.name == input.name && t.startTime == input.startTime &&
      t.duration == input.duration && !t.reminded &&
      t.priority == PriorityFromText(input.priorityText) &&
      t.category == CategoryFromText(input.categoryText) &&
      t.customCategory == (if t.category == OTHER then input.customCategoryText else []) &&
      t.reminderTime == ParseReminderWith(ReminderText(input), input.startTime, arith).time &&
      t.reminderOption == ParseReminderWith(ReminderText(input), input.startTime, arith).option
    ensures r.Ok? ==> now < r.value.startTime
    ensures r.Ok? ==> !HasReminder(r.value) || (now < r.value.reminderTime < r.value.startTime)
  {
    if |input.name| == 0 then Err(EmptyName)
    else if input.startTime == 0 then Err(NoStartTime)
    else if input.startTime <= now then Err(StartNotInFuture)
    else
      var category := CategoryFromText(input.categoryText);
      if category == OTHER && input.customCategoryText == [] then Err(EmptyCustomCategory)
      else
        var setting := ParseReminderWith(ReminderText(input), input.startTime, arith);
        if setting.time != 0 && setting.time <= now then Err(ReminderNotAfterNow)
        else if setting.time != 0 && setting.time >= input.startTime then Err(ReminderNotBeforeStart)
        else
          Ok(DefaultTask().(
            name := input.name,
            startTime := input.startTime,
            duration := input.duration,
            priority := PriorityFromText(input.priorityText),
            category := category,
            customCategory := if category == OTHER then input.customCategoryText else [],
            reminderTime := setting.time,
            reminderOption := setting.option))
  }

  function BuildNewTask(input: DialogInput, now: int): Result<Task, Rejection> {
    BuildNewTaskWith(input, now, Exact)
  }

  /** Inputs that pass the checks before the reminder. */
  predicate PassesBasicChecks(input: DialogInput, now: int) {
    |input.name| > 0 && input.startTime != 0 && now < input.startTime &&
    !(CategoryFromText(input.categoryText) == OTHER && input.customCategoryText == [])
  }

  /** "0分钟前" asks for a reminder at the start itself, which the dialog refuses. */
  lemma ZeroMinutesIsRejected(input: DialogInput, now: int)
    requires PassesBasicChecks(input, now)
    requires ReminderText(input) == "0分钟前"
    ensures BuildNewTask(input, now) == Err(ReminderNotBeforeStart)
  {
    assert DecimalString(0) + MINUTES_AGO == "0分钟前";
    MinutesTextReadsBack(0, input.startTime);
  }

  /** With the wrapping product, "49711天前" (about 136 years) becomes a
      reminder 63104 seconds (about 17.5 hours) before the start. */
  lemma WrappedDaysOffset(start: int)
    ensures ParseReminderAsWritten("49711天前", start) == ReminderSetting(start - 63104, "49711天前")
    ensures ParseReminder("49711天前", start) == ReminderSetting(start - 4295030400, "49711天前")
  {
    assert DecimalString(49711) + DAYS_AGO == "49711天前" by {
      assert DecimalString(4) == "4";
      assert DecimalString(49) == "49";
      assert DecimalString(497) == "497";
      assert DecimalString(4971) == "4971";
      assert DecimalString(49711) == "49711";
    }
    DaysTextReadsBack(49711, start, Int32Wrap);
    DaysTextReadsBack(49711, start, Exact);
    assert 49711 * 86400 == 4295030400;
    WrapOnce(4295030400);
  }

  /** The compiled dialog therefore accepts that text as a near reminder, where
      the product the text denotes lies before `now` and is refused. */
  lemma WrappedDaysAcceptedAsWritten(input: DialogInput, now: int)
    requires PassesBasicChecks(input, now)
    requires ReminderText(input) == "49711天前"
    requires input.startTime - 4295030400 <= now < input.startTime - 63104
    requires input.startTime != 4295030400 // a reminder time of exactly 0 means none
    ensures BuildNewTaskWith(input, now, Int32Wrap).Ok?
    ensures BuildNewTaskWith(input, now, Int32Wrap).value.reminderTime == input.startTime - 63104
    ensures BuildNewTask(input, now) == Err(ReminderNotAfterNow)
  {
    WrappedDaysOffset(input.startTime);
    var text := ReminderText(input);
    assert ParseReminderWith(text, input.startTime, Int32Wrap).time == input.startTime - 63104;
    assert ParseReminderWith(text, input.startTime, Exact).time == input.startTime - 4295030400;
  }

  /** The outcome of pressing OK. */
  datatype AddOutcome = Rejected(reason: Rejection) | Duplicate | Added

  /** The dialog's OK handler: build the task, then hand it to the store's
      addTask. `Int32Wrap` runs the handler as compiled, `Exact` as corrected. */
  method AddTaskFromDialog(store: TaskStore.TaskManager, input: DialogInput, now: int, arith: Arithmetic)
    returns (outcome: AddOutcome)
    modifies store
    ensures BuildNewTaskWith(input, now, arith).Err? ==>
      outcome == Rejected(BuildNewTaskWith(input, now, arith).error) && unchanged(store)
    ensures BuildNewTaskWith(input, now, arith).Ok? ==>
      (outcome == Added <==> !TaskStore.HasKey(old(store.tasks), BuildNewTaskWith(input, now, arith).value))
    ensures BuildNewTaskWith(input, now, arith).Ok? && outcome != Added ==>
      outcome == Duplicate && store.tasks == old(store.tasks) && store.nextId == old(store.nextId) &&
      store.disk == old(store.disk)
    ensures outcome == Added ==> var t := BuildNewTaskWith(input, now, arith).value.(id := old(store.nextId));
      store.nextId == old(store.nextId) + 1 &&
      TaskStore.SortedByStart(store.tasks) &&
      multiset(store.tasks) == multiset(old(store.tasks)) + multiset{t} &&
      store.disk == old(store.disk)[store.tasksFile := old(store.File()) + TaskCodec.EncodeTask(t)]
    ensures store.currentUser == old(store.currentUser) && store.tasksFile == old(store.tasksFile)
    ensures store.reminderRunning == old(store.reminderRunning)
    ensures old(store.Valid()) ==> store.Valid()
    ensures old(store.Mirrored()) && (BuildNewTaskWith(input, now, arith).Ok? ==>
      TaskCodec.Representable(BuildNewTaskWith(input, now, arith).value.(id := old(store.nextId)))) ==>
      store.Mirrored()
  {
    var built := BuildNewTaskWith(input, now, arith);
    if built.Err? {
      return Rejected(built.error);
    }
    var ok := store.AddTask(built.value);
    outcome := if ok then Added else Duplicate;
  }

  // ---------------------------------------------------------------------
  // The reminder entry normaliser

  /** The texts the entry keeps as they are. */
  predicate KeptAsTyped(t: string) {
    t == NO_REMINDER || Contains(t, MINUTES_AGO) || Contains(t, HOURS_AGO) || Contains(t, DAYS_AGO)
  }

  /** stol accepts the whole text as a value of type long: `pos` reaches the
      end and the value does not overflow. */
  predicate IsWholeLong(t: string) {
    ParseLeadingInteger(t).Some? && ParseLeadingInteger(t).value.end == |t| &&
    InInt64(ParseLeadingInteger(t).value.value)
  }

  /** The entry the normaliser rewrites as minutes: a whole positive long. */
  predicate PositiveWholeLong(t: string) {
    IsWholeLong(t) && 0 < ParseLeadingInteger(t).value.value
  }

  /** on_reminder_entry_focus_out: the entry's text after it loses focus. Blank
      text and every entry that is neither kept nor a whole positive long become
      "不提醒". */
  function NormaliseReminderEntry(text: string): (r: string)
    ensures Trim(text) == [] ==> r == NO_REMINDER
    ensures Trim(text) != [] && KeptAsTyped(Trim(text)) ==> r == text
    ensures Trim(text) != [] && !KeptAsTyped(Trim(text)) && PositiveWholeLong(Trim(text)) ==>
      r == DecimalString(ParseLeadingInteger(Trim(text)).value.value) + MINUTES_AGO
    ensures Trim(text) != [] && !KeptAsTyped(Trim(text)) && !PositiveWholeLong(Trim(text)) ==>
      r == NO_REMINDER
    ensures r != NO_REMINDER && r != text ==>
      PositiveWholeLong(Trim(text)) && r == DecimalString(ParseLeadingInteger(Trim(text)).value.value) + MINUTES_AGO
  {
    var t := Trim(text);
    if t == [] then NO_REMINDER
    else if KeptAsTyped(t) then text
    else
      match ParseLeadingInteger(t)
      case Some(p) =>
        if p.end == |t| && InInt64(p.value) && p.value > 0 then DecimalString(p.value) + MINUTES_AGO
        else NO_REMINDER
      case None => NO_REMINDER
  }

  lemma TrimOfMinutesText(v: nat)
    ensures Trim(DecimalString(v) + MINUTES_AGO) == DecimalString(v) + MINUTES_AGO
    ensures Contains(DecimalString(v) + MINUTES_AGO, MINUTES_AGO)
  {
    var s := DecimalString(v) + MINUTES_AGO;
    assert s[0] == DecimalString(v)[0] && s[|s| - 1] == MINUTES_AGO[|MINUTES_AGO| - 1];
    TrimUnspaced(s);
    assert s[|DecimalString(v)|..] == MINUTES_AGO;
    ContainsAt(s, MINUTES_AGO, |DecimalString(v)|);
  }

  /** Normalising twice is normalising once. */
  lemma NormaliseIdempotent(text: string)
    ensures NormaliseReminderEntry(NormaliseReminderEntry(text)) == NormaliseReminderEntry(text)
  {
    var r := NormaliseReminderEntry(text);
    if r == NO_REMINDER {
      assert Trim(NO_REMINDER) == NO_REMINDER by {
        assert SpacesEnd(NO_REMINDER, 0) == 0;
        assert LastNotSpace(NO_REMINDER) == |NO_REMINDER| - 1;
      }
    } else if r != text {
      TrimOfMinutesText(ParseLeadingInteger(Trim(text)).value.value);
    }
  }

  /** No plain suffix occurs in a run of digits. */
  lemma DigitsHoldNoSuffix(s: string, suffix: string)
    requires AllDigits(s) && PlainSuffix(suffix)
    ensures !Contains(s, suffix)
  {
    forall i | 0 <= i <= |s| ensures !(suffix <= s[i..]) {
      if i < |s| {
        assert s[i..][0] == s[i];
      }
    }
  }

  lemma DecimalTextTrims(v: nat)
    ensures Trim(DecimalString(v)) == DecimalString(v)
  {
    var s := DecimalString(v);
    assert SpacesEnd(s, 0) == 0;
    assert LastNotSpace(s) == |s| - 1;
    assert s[0..|s|] == s;
  }

  lemma DecimalTextNotKept(v: nat)
    ensures !KeptAsTyped(DecimalString(v))
  {
    var s := DecimalString(v);
    SuffixesArePlain();
    DigitsHoldNoSuffix(s, MINUTES_AGO);
    DigitsHoldNoSuffix(s, HOURS_AGO);
    DigitsHoldNoSuffix(s, DAYS_AGO);
    assert s[0] != NO_REMINDER[0];
  }

  /** strtol reads all of a number's decimal text, and its value. */
  lemma DecimalTextParses(v: nat)
    ensures ParseLeadingInteger(DecimalString(v)) == Some(Parsed(v, |DecimalString(v)|))
  {
    var s := DecimalString(v);
    assert SpacesEnd(s, 0) == 0;
    DigitsEndOfRun(s, 0, |s|);
    assert s[0..|s|] == s;
    DecimalRoundTrip(v);
  }

  /** The normaliser's last branch: an entry that trims to a whole number and
      names no offset. */
  lemma NormaliseWholeNumber(text: string, v: int)
    requires Trim(text) != [] && !KeptAsTyped(Trim(text))
    requires ParseLeadingInteger(Trim(text)) == Some(Parsed(v, |Trim(text)|))
    ensures NormaliseReminderEntry(text) ==
      if InInt64(v) && v > 0 then DecimalString(v) + MINUTES_AGO else NO_REMINDER
  {
  }

  /** stol reads "5" from "5x" but stops before the end, so the entry becomes "不提醒". */
  lemma TrailingTextIsDropped()
    ensures NormaliseReminderEntry("5x") == NO_REMINDER
  {
    var s := "5x";
    assert DecimalString(5) == "5";
    assert DecimalString(5) + "x" == s;
    DecimalPrefixParses(5, "x");
    assert ParseLeadingInteger(s).value.end == 1;
    assert !PositiveWholeLong(s);
    assert !KeptAsTyped(s) by {
      LacksFirstChar(s, MINUTES_AGO);
      LacksFirstChar(s, HOURS_AGO);
      LacksFirstChar(s, DAYS_AGO);
      assert s[0] != NO_REMINDER[0];
    }
    TrimUnspaced(s);
  }

  /** A text that lacks the first character of sub does not contain sub. */
  lemma LacksFirstChar(s: string, sub: string)
    requires sub != [] && forall i :: 0 <= i < |s| ==> s[i] != sub[0]
    ensures !Contains(s, sub)
  {
    forall i | 0 <= i <= |s| ensures !(sub <= s[i..]) {
      if i < |s| {
        assert s[i..][0] == s[i];
      }
    }
  }

  /** A positive whole number becomes "<v>分钟前"; zero becomes "不提醒". */
  lemma NumericEntryBecomesMinutes(v: nat)
    requires v < 0x8000_0000_0000_0000
    ensures NormaliseReminderEntry(DecimalString(v)) ==
      if v == 0 then NO_REMINDER else DecimalString(v) + MINUTES_AGO
  {
    DecimalTextTrims(v);
    DecimalTextNotKept(v);
    DecimalTextParses(v);
    NormaliseWholeNumber(DecimalString(v), v);
  }

  /** What the normaliser writes, the dialog reads back: "不提醒" as no reminder,
      and "<v>分钟前" as v minutes before the start, for values stoi accepts. */
  lemma NormalisedEntryReadsBack(text: string, start: int)
    requires NormaliseReminderEntry(text) != text
    ensures var r := NormaliseReminderEntry(text);
      r == NO_REMINDER ==> ParseReminder(r, start) == ReminderSetting(0, NO_REMINDER)
    ensures var r := NormaliseReminderEntry(text);
      r != NO_REMINDER ==>
        ParseLeadingInteger(Trim(text)).Some? &&
        var v := ParseLeadingInteger(Trim(text)).value.value;
        0 < v &&
        ParseReminder(r, start) ==
          (if v < 0x8000_0000 then ReminderSetting(start - 60 * v, r) else ReminderSetting(0, NO_REMINDER))
  {
    var r := NormaliseReminderEntry(text);
    if r != NO_REMINDER {
      var v: nat := ParseLeadingInteger(Trim(text)).value.value;
      if v < 0x8000_0000 {
        MinutesTextReadsBack(v, start);
      } else {
        SuffixesArePlain();
        NumberThenSuffix(v, MINUTES_AGO, MINUTES_AGO);
        assert r[0] != NO_REMINDER[0];
      }
    }
  }

  // ---------------------------------------------------------------------
  // The day filter of the month, week and day-detail views

  const SECONDS_PER_DAY: int := 86400

  /** A task is listed for the day that starts at startOfDay iff it starts within it. */
  predicate OnDay(t: Task, startOfDay: int) {
    startOfDay <= t.startTime < startOfDay + SECONDS_PER_DAY
  }

  /** The tasks listed for a day, in list order. */
  function TasksOnDay(ts: seq<Task>, startOfDay: int): (r: seq<Task>)
    ensures forall t :: t in r <==> t in ts && OnDay(t, startOfDay)
    ensures |r| <= |ts|
  {
    if ts == [] then []
    else (if OnDay(ts[0], startOfDay) then [ts[0]] else []) + TasksOnDay(ts[1..], startOfDay)
  }

  /** A task that started before the day, even one still running, is not listed;
      consecutive days list disjoint tasks. */
  lemma DaysAreDisjoint(ts: seq<Task>, startOfDay: int, t: Task)
    requires t in ts
    ensures t.startTime < startOfDay ==> t !in TasksOnDay(ts, startOfDay)
    ensures t in TasksOnDay(ts, startOfDay) ==> t !in TasksOnDay(ts, startOfDay + SECONDS_PER_DAY)
  {
  }

  /** The store's list is sorted by start time, so each day's list is too. */
  lemma {:induction false} TasksOnDaySorted(ts: seq<Task>, startOfDay: int)
    requires TaskStore.SortedByStart(ts)
    ensures TaskStore.SortedByStart(TasksOnDay(ts, startOfDay))
  {
    if ts != [] {
      TasksOnDaySorted(ts[1..], startOfDay);
      var rest := TasksOnDay(ts[1..], startOfDay);
      forall k | 0 <= k < |rest| ensures ts[0].startTime <= rest[k].startTime {
        assert rest[k] in rest;
        var j :| 0 <= j < |ts[1..]| && ts[1..][j] == rest[k];
        assert ts[j + 1] == rest[k];
      }
    }
  }
}
