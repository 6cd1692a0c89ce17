/**
 * Reading a recurrence rule text (section 3.3.10 of RFC 5545) into the app's
 * own form (`convertRruleToJson` in scripts/migrate-from-postgres.ts).
 */
module RecurrenceRules {
  import opened Wrappers
  import opened Decimal

  // --- Splitting and joining text ------------------------------------------

  function Split(s: string, sep: char): (parts: seq<string>)
    ensures |parts| > 0
  {
    if s == "" then [""]
    else if s[0] == sep then [""] + Split(s[1..], sep)
    else
      var rest := Split(s[1..], sep);
      [[s[0]] + rest[0]] + rest[1..]
  }

  function Join(parts: seq<string>, sep: char): string
    requires |parts| > 0
  {
    if |parts| == 1 then parts[0] else parts[0] + [sep] + Join(parts[1..], sep)
  }

  lemma {:induction false} SplitWhole(s: string, sep: char)
    requires sep !in s
    ensures Split(s, sep) == [s]
  {
    if s == "" {
    } else {
      SplitWhole(s[1..], sep);
      assert [s[0]] + s[1..] == s;
    }
  }

  lemma {:induction false} SplitFirst(a: string, sep: char, b: string)
    requires sep !in a
    ensures Split(a + [sep] + b, sep) == [a] + Split(b, sep)
  {
    var s := a + [sep] + b;
    if a == "" {
      assert s[1..] == b;
    } else {
      assert s[1..] == a[1..] + [sep] + b;
      SplitFirst(a[1..], sep, b);
      assert [s[0]] + a[1..] == a;
      assert ([a[1..]] + Split(b, sep))[1..] == Split(b, sep);
    }
  }

  lemma {:induction false} SplitOfJoin(parts: seq<string>, sep: char)
    requires |parts| > 0 && forall p :: p in parts ==> sep !in p
    ensures Split(Join(parts, sep), sep) == parts
  {
    if |parts| == 1 {
      SplitWhole(parts[0], sep);
    } else {
      SplitFirst(parts[0], sep, Join(parts[1..], sep));
      SplitOfJoin(parts[1..], sep);
    }
  }

  // --- Parsing the parts ---------------------------------------------------

  const PREFIX := "RRULE:"

  function StripPrefix(s: string): string {
    if PREFIX <= s then s[|PREFIX|..] else s
  }

  /** Files one `KEY=VALUE` part; a part without both is ignored, a repeated key overwrites. */
  function AddPart(parts: map<string, string>, part: string): map<string, string> {
    var fields := Split(part, '=');
    if |fields| >= 2 && fields[0] != "" && fields[1] != "" then parts[fields[0] := fields[1]] else parts
  }

  function CollectParts(texts: seq<string>): map<string, string> {
    if texts == [] then map[] else AddPart(CollectParts(texts[..|texts| - 1]), texts[|texts| - 1])
  }

  function ParseParts(rule: string): map<string, string> {
    CollectParts(Split(StripPrefix(rule), ';'))
  }

  /** The standard's content-line name before a rule is skipped, once. */
  lemma PrefixIsSkipped(text: string)
    ensures ParseParts("RRULE:" + text) == CollectParts(Split(text, ';'))
    ensures !("RRULE:" <= text) ==> ParseParts(text) == CollectParts(Split(text, ';'))
  {
    assert ("RRULE:" + text)[6..] == text;
  }

  // --- Printing a rule -----------------------------------------------------

  datatype Part = Part(key: string, value: string)

  ghost predicate IsPlain(s: string) {
    s != "" && forall c :: c in s ==> c != ';' && c != '=' && c != ':'
  }

  /** Distinct keys, and no separator inside a key or value. */
  ghost predicate WellFormed(parts: seq<Part>) {
    && |parts| > 0
    && (forall i :: 0 <= i < |parts| ==> IsPlain(parts[i].key) && IsPlain(parts[i].value))
    && (forall i, j :: 0 <= i < j < |parts| ==> parts[i].key != parts[j].key)
  }

  function PartText(p: Part): string {
    p.key + "=" + p.value
  }

  function Texts(parts: seq<Part>): seq<string> {
    seq(|parts|, i requires 0 <= i < |parts| => PartText(parts[i]))
  }

  function Print(parts: seq<Part>, prefixed: bool): string
    requires |parts| > 0
  {
    (if prefixed then PREFIX else "") + Join(Texts(parts), ';')
  }

  lemma PartReadsBack(p: Part)
    requires IsPlain(p.key) && IsPlain(p.value)
    ensures Split(PartText(p), '=') == [p.key, p.value]
  {
    SplitFirst(p.key, '=', p.value);
    SplitWhole(p.value, '=');
  }

  lemma CollectsLast(parts: seq<Part>)
    requires WellFormed(parts)
    ensures var n := |parts| - 1;
      CollectParts(Texts(parts)) == CollectParts(Texts(parts[..n]))[parts[n].key := parts[n].value]
  {
    var n := |parts| - 1;
    PartReadsBack(parts[n]);
    assert Texts(parts)[..n] == Texts(parts[..n]);
  }

  lemma {:induction false} PartIsCollected(parts: seq<Part>, i: nat)
    requires WellFormed(parts) && i < |parts|
    ensures var m := CollectParts(Texts(parts)); parts[i].key in m && m[parts[i].key] == parts[i].value
  {
    CollectsLast(parts);
    var n := |parts| - 1;
    if i < n {
      PartIsCollected(parts[..n], i);
    }
  }

  lemma {:induction false} CollectedKeyIsPart(parts: seq<Part>, key: string) returns (i: nat)
    requires parts != [] ==> WellFormed(parts)
    requires key in CollectParts(Texts(parts))
    ensures i < |parts| && parts[i].key == key
  {
    CollectsLast(parts);
    i := |parts| - 1;
    if parts[i].key != key {
      i := CollectedKeyIsPart(parts[..i], key);
    }
  }

  lemma JoinStartsWithFirst(parts: seq<string>, sep: char)
    requires |parts| > 0
    ensures parts[0] <= Join(parts, sep)
  {
  }

  /** Without the prefix, a printed rule's text does not look prefixed. */
  lemma PlainRuleIsUnprefixed(parts: seq<Part>)
    requires WellFormed(parts)
    ensures !(PREFIX <= Join(Texts(parts), ';'))
  {
    var s, first := Join(Texts(parts), ';'), PartText(parts[0]);
    JoinStartsWithFirst(Texts(parts), ';');
    var k := |parts[0].key|;
    assert forall i :: 0 <= i < k ==> s[i] == first[i] == parts[0].key[i];
    assert s[k] == first[k] == '=';
    if k >= |PREFIX| {
      assert s[5] == parts[0].key[5] && parts[0].key[5] in parts[0].key && PREFIX[5] == ':';
    } else {
      assert PREFIX[k] != '=';
    }
  }

  /**
   * Of a part with two equals signs the text between them is the value, and it replaces an earlier one; without
   * an equals sign, a key or a value the part is ignored.
   */
  lemma OddPartsAreRead(m: map<string, string>, key: string, value: string, rest: string)
    requires IsPlain(key) && IsPlain(value)
    ensures AddPart(m, key + "=" + value + "=" + rest) == m[key := value]
    ensures AddPart(m, key) == AddPart(m, key + "=") == AddPart(m, "=" + value) == m
  {
    assert key + "=" + value + "=" + rest == key + ['='] + (value + ['='] + rest);
    SplitFirst(key, '=', value + ['='] + rest);
    SplitFirst(value, '=', rest);
    SplitWhole(key, '=');
    assert key + "=" == key + ['='] + "" && "=" + value == "" + ['='] + value;
    SplitFirst(key, '=', "");
    SplitFirst("", '=', value);
  }

  /** Parsing a printed rule gives exactly its parts, in whatever order and with or without the prefix. */
  lemma ParseReadsPrint(parts: seq<Part>, prefixed: bool)
    requires WellFormed(parts)
    ensures var m := ParseParts(Print(parts, prefixed));
      && (forall p :: p in parts ==> p.key in m && m[p.key] == p.value)
      && (forall key :: key in m ==> exists p :: p in parts && p.key == key)
  {
    var text := Join(Texts(parts), ';');
    if prefixed {
      assert (PREFIX + text)[|PREFIX|..] == text;
    } else {
      PlainRuleIsUnprefixed(parts);
      assert "" + text == text;
    }
    assert StripPrefix(Print(parts, prefixed)) == text;
    forall t | t in Texts(parts) ensures ';' !in t {
      var i :| 0 <= i < |parts| && t == PartText(parts[i]);
    }
    SplitOfJoin(Texts(parts), ';');
    forall p | p in parts ensures p.key in CollectParts(Texts(parts)) && CollectParts(Texts(parts))[p.key] == p.value {
      var i: nat :| i < |parts| && parts[i] == p;
      PartIsCollected(parts, i);
    }
    forall key | key in CollectParts(Texts(parts)) ensures exists p :: p in parts && p.key == key {
      var i := CollectedKeyIsPart(parts, key);
      assert parts[i] in parts;
    }
  }

  // --- Converting ----------------------------------------------------------

  datatype Frequency = Weekly | Monthly

  /** `interval` is None where the text is no plain numeral; `nthWeek` belongs to monthly rules. */
  datatype Rule = Rule(freq: Frequency, interval: Option<nat>, weekday: nat, nthWeek: Option<nat>)

  /** The two-letter code of a weekday, Sunday being 0. */
  function Code(weekday: nat): (code: string)
    requires weekday < 7
    ensures |code| == 2 && IsCapital(code[0]) && IsCapital(code[1])
    ensures DayOf(code) == Some(weekday)
  {
    match weekday
    case 0 => "SU"
    case 1 => "MO"
    case 2 => "TU"
    case 3 => "WE"
    case 4 => "TH"
    case 5 => "FR"
    case 6 => "SA"
  }

  function DayOf(code: string): Option<nat> {
    if code == "SU" then Some(0) else if code == "MO" then Some(1) else if code == "TU" then Some(2)
    else if code == "WE" then Some(3) else if code == "TH" then Some(4) else if code == "FR" then Some(5)
    else if code == "SA" then Some(6) else None
  }

  predicate IsCapital(c: char) {
    'A' <= c <= 'Z'
  }

  /** `replace(/[^A-Z]/g, '')`. */
  function Capitals(s: string): string {
    if s == "" then "" else (if IsCapital(s[0]) then [s[0]] else "") + Capitals(s[1..])
  }

  function PartOr(parts: map<string, string>, key: string, fallback: string): string {
    if key in parts then parts[key] else fallback
  }

  /** `startWeekday` and `startDay` are the start date's day of the week and of the month. */
  function Convert(rule: string, startWeekday: nat, startDay: nat): Rule {
    var parts := ParseParts(rule);
    var interval := PartOr(parts, "INTERVAL", "1");
    var freq := if PartOr(parts, "FREQ", "") == "MONTHLY" then Monthly else Weekly;
    Rule(freq,
         if IsNumeral(interval) then Some(Value(interval)) else None,
         DayOf(Capitals(PartOr(parts, "BYDAY", ""))).GetOr(startWeekday),
         if freq.Monthly? then Some((startDay + 6) / 7) else None)
  }

  /** What is left of a text are its letters from A to Z. */
  lemma {:induction false} CapitalsAreLetters(s: string)
    ensures forall c :: c in Capitals(s) <==> c in s && 'A' <= c <= 'Z'
  {
    if s == "" {
    } else {
      CapitalsAreLetters(s[1..]);
      assert s == [s[0]] + s[1..];
    }
  }

  /** The codes of the week from Sunday on. */
  lemma WeekdayCodes()
    ensures DayOf("SU") == Some(0) && DayOf("MO") == Some(1) && DayOf("TU") == Some(2) && DayOf("WE") == Some(3)
    ensures DayOf("TH") == Some(4) && DayOf("FR") == Some(5) && DayOf("SA") == Some(6)
    ensures forall code :: DayOf(code).Some? ==> code in ["SU", "MO", "TU", "WE", "TH", "FR", "SA"]
  {
    assert "SU"[0] != "MO"[0] && "SU"[1] != "SA"[1] && "TU"[1] != "TH"[1] && "SU"[0] != "TU"[0] && "MO"[0] != "TU"[0];
    assert "WE"[0] != "SU"[0] && "WE"[0] != "MO"[0] && "WE"[0] != "TU"[0] && "TH"[0] != "SU"[0] && "TH"[0] != "MO"[0];
    assert "TH"[0] != "WE"[0] && "FR"[0] !in "SMTW" && "SA"[0] !in "MTWF";
  }

  lemma {:induction false} CapitalsOfConcat(a: string, b: string)
    ensures Capitals(a + b) == Capitals(a) + Capitals(b)
  {
    if a == "" {
      assert a + b == b;
    } else {
      CapitalsOfConcat(a[1..], b);
      assert a + b != "" && (a + b)[0] == a[0] && (a + b)[1..] == a[1..] + b;
      var head := if IsCapital(a[0]) then [a[0]] else "";
      assert head + (Capitals(a[1..]) + Capitals(b)) == (head + Capitals(a[1..])) + Capitals(b);
    }
  }

  lemma CapitalsOfCode(weekday: nat)
    requires weekday < 7
    ensures Capitals(Code(weekday)) == Code(weekday)
  {
    var code := Code(weekday);
    var tail := code[1..];
    assert tail == [code[1]] && tail[1..] == "";
    assert Capitals("") == "" && Capitals(tail) == [code[1]] + "";
    assert Capitals(code) == [code[0]] + ([code[1]] + "") == code;
  }

  lemma {:induction false} CapitalsOfNone(s: string)
    requires forall c :: c in s ==> !IsCapital(c)
    ensures Capitals(s) == ""
  {
    if s == "" {
    } else {
      CapitalsOfNone(s[1..]);
    }
  }

  lemma WeekdayWithOrdinal(ordinal: string, weekday: nat)
    requires weekday < 7 && forall c :: c in ordinal ==> !IsCapital(c)
    ensures DayOf(Capitals(ordinal + Code(weekday))) == Some(weekday)
  {
    CapitalsOfConcat(ordinal, Code(weekday));
    CapitalsOfNone(ordinal);
    CapitalsOfCode(weekday);
    assert "" + Code(weekday) == Code(weekday);
  }

  function FrequencyText(freq: Frequency): string {
    if freq.Monthly? then "MONTHLY" else "WEEKLY"
  }

  /**
   * Printing a weekly or monthly rule with an interval and one weekday, the weekday with or without
   * an ordinal, among any other parts in any order, and converting it recovers all three.
   */
  lemma ConvertReadsPrint(parts: seq<Part>, prefixed: bool, startWeekday: nat, startDay: nat,
                          freq: Frequency, interval: nat, ordinal: string, weekday: nat)
    requires WellFormed(parts) && weekday < 7
    requires forall c :: c in ordinal ==> !IsCapital(c)
    requires Part("FREQ", FrequencyText(freq)) in parts
    requires Part("INTERVAL", Digits(interval)) in parts
    requires Part("BYDAY", ordinal + Code(weekday)) in parts
    ensures Convert(Print(parts, prefixed), startWeekday, startDay)
      == Rule(freq, Some(interval), weekday, if freq.Monthly? then Some((startDay + 6) / 7) else None)
  {
    ParseReadsPrint(parts, prefixed);
    assert |"MONTHLY"| != |"WEEKLY"|;
    ValueOfDigits(interval);
    WeekdayWithOrdinal(ordinal, weekday);
  }

  /** A printed rule is monthly only if it says so; a missing interval is 1 and a missing weekday the start date's. */
  lemma ConvertDefaults(parts: seq<Part>, prefixed: bool, startWeekday: nat, startDay: nat)
    requires WellFormed(parts)
    ensures var r := Convert(Print(parts, prefixed), startWeekday, startDay);
      && (r.freq.Monthly? <==> Part("FREQ", "MONTHLY") in parts)
      && (r.nthWeek.Some? <==> r.freq.Monthly?)
      && ((forall p :: p in parts ==> p.key != "INTERVAL") ==> r.interval == Some(1))
      && ((forall p :: p in parts ==> p.key != "BYDAY") ==> r.weekday == startWeekday)
  {
    ParseReadsPrint(parts, prefixed);
    var m := ParseParts(Print(parts, prefixed));
    if "FREQ" in m {
      var p :| p in parts && p.key == "FREQ";
      assert m[p.key] == p.value && p == Part("FREQ", p.value);
    }
    assert Value("1") == 1;
  }

  /** One weekday of a list, with the ordinal written before it, if any. */
  datatype DayEntry = DayEntry(ordinal: string, weekday: nat)

  ghost predicate IsEntry(e: DayEntry) {
    e.weekday < 7 && forall c :: c in e.ordinal ==> !IsCapital(c)
  }

  ghost predicate AreEntries(entries: seq<DayEntry>) {
    |entries| > 0 && forall i :: 0 <= i < |entries| ==> IsEntry(entries[i])
  }

  function EntryTexts(entries: seq<DayEntry>): seq<string>
    requires forall i :: 0 <= i < |entries| ==> entries[i].weekday < 7
  {
    seq(|entries|, i requires 0 <= i < |entries| => entries[i].ordinal + Code(entries[i].weekday))
  }

  lemma CapitalsOfEntry(e: DayEntry)
    requires IsEntry(e)
    ensures Capitals(e.ordinal + Code(e.weekday)) == Code(e.weekday)
  {
    CapitalsOfConcat(e.ordinal, Code(e.weekday));
    CapitalsOfNone(e.ordinal);
    CapitalsOfCode(e.weekday);
    assert "" + Code(e.weekday) == Code(e.weekday);
  }

  lemma {:induction false} WeekdayListLength(entries: seq<DayEntry>)
    requires AreEntries(entries)
    ensures |Capitals(Join(EntryTexts(entries), ','))| == 2 * |entries|
  {
    var texts := EntryTexts(entries);
    CapitalsOfEntry(entries[0]);
    if |entries| == 1 {
    } else {
      assert texts[1..] == EntryTexts(entries[1..]);
      WeekdayListLength(entries[1..]);
      CapitalsOfConcat(texts[0] + ",", Join(texts[1..], ','));
      CapitalsOfConcat(texts[0], ",");
      CapitalsOfNone(",");
    }
  }

  lemma ConvertedWeekday(parts: seq<Part>, prefixed: bool, startWeekday: nat, startDay: nat, entries: seq<DayEntry>)
    requires WellFormed(parts) && AreEntries(entries) && Part("BYDAY", Join(EntryTexts(entries), ',')) in parts
    ensures Convert(Print(parts, prefixed), startWeekday, startDay).weekday
      == if |entries| == 1 then entries[0].weekday else startWeekday
  {
    ParseReadsPrint(parts, prefixed);
    WeekdayListLength(entries);
    if |entries| == 1 {
      WeekdayWithOrdinal(entries[0].ordinal, entries[0].weekday);
    }
  }

  /** The rule alone fixes the converted weekday, whatever the start date. */
  ghost predicate FixesWeekday(rule: string) {
    forall v, w, startDay :: Convert(rule, v, startDay).weekday == Convert(rule, w, startDay).weekday
  }

  /**
   * A printed list of weekdays, with or without ordinals, fixes the converted weekday exactly when it
   * has one entry; a longer list is read as the start date's weekday.
   */
  lemma WeekdayListReadIff(parts: seq<Part>, prefixed: bool, entries: seq<DayEntry>)
    requires WellFormed(parts) && AreEntries(entries) && Part("BYDAY", Join(EntryTexts(entries), ',')) in parts
    ensures FixesWeekday(Print(parts, prefixed)) <==> |entries| == 1
    ensures forall w, startDay :: Convert(Print(parts, prefixed), w, startDay).weekday
                                  == if |entries| == 1 then entries[0].weekday else w
  {
    var rule := Print(parts, prefixed);
    forall w, startDay
      ensures Convert(rule, w, startDay).weekday == if |entries| == 1 then entries[0].weekday else w
    {
      ConvertedWeekday(parts, prefixed, w, startDay, entries);
    }
    if |entries| != 1 {
      assert Convert(rule, 0, 1).weekday != Convert(rule, 1, 1).weekday;
    }
  }

  // --- The week of the month -----------------------------------------------

  /** The weekday of a day of the month, given that of the first. */
  function WeekdayOf(first: nat, day: nat): nat
    requires day > 0
  {
    (first + day - 1) % 7
  }

  /** How many of the days up to `day` fall on the given weekday. */
  function CountWeekday(first: nat, weekday: nat, day: nat): nat {
    if day == 0 then 0
    else CountWeekday(first, weekday, day - 1) + if WeekdayOf(first, day) == weekday then 1 else 0
  }

  lemma {:induction false} CountToLast(first: nat, day: nat, back: nat)
    requires 0 < day && back < 7 && back < day
    ensures CountWeekday(first, WeekdayOf(first, day), day)
      == CountWeekday(first, WeekdayOf(first, day), day - 1 - back) + 1
  {
    if back == 0 {
    } else {
      CountToLast(first, day, back - 1);
      assert WeekdayOf(first, day - back) != WeekdayOf(first, day);
    }
  }

  /** `nthWeek` is which one of its weekday the start day is in its month. */
  lemma {:induction false} NthWeekCountsWeekday(first: nat, day: nat)
    requires day > 0
    ensures (day + 6) / 7 == CountWeekday(first, WeekdayOf(first, day), day)
    decreases day
  {
    if day <= 7 {
      CountToLast(first, day, day - 1);
    } else {
      CountToLast(first, day, 6);
      NthWeekCountsWeekday(first, day - 7);
      assert WeekdayOf(first, day - 7) == WeekdayOf(first, day);
    }
  }

  /**
   * A monthly rule printed with an ordinal keeps it exactly when the start day is that one of its
   * weekday in the month: the ordinal itself is never read.
   */
  lemma PrintedOrdinalKeptIff(parts: seq<Part>, prefixed: bool, startWeekday: nat, first: nat, startDay: nat,
                              ordinal: nat, weekday: nat)
    requires WellFormed(parts) && weekday < 7 && startDay > 0
    requires Part("FREQ", "MONTHLY") in parts && Part("BYDAY", Digits(ordinal) + Code(weekday)) in parts
    ensures var r := Convert(Print(parts, prefixed), startWeekday, startDay);
      && r.weekday == weekday
      && (r.nthWeek == Some(ordinal) <==> CountWeekday(first, WeekdayOf(first, startDay), startDay) == ordinal)
      && (r.nthWeek == Some(ordinal) <==> 7 * (ordinal - 1) < startDay <= 7 * ordinal)
  {
    ParseReadsPrint(parts, prefixed);
    assert forall c :: c in Digits(ordinal) ==> !IsCapital(c);
    WeekdayWithOrdinal(Digits(ordinal), weekday);
    NthWeekCountsWeekday(first, startDay);
  }

  /** An ordinal that counts from the month's end is lost: the converted rule counts from its beginning. */
  lemma OrdinalFromEndIsLost(parts: seq<Part>, prefixed: bool, startWeekday: nat, first: nat, startDay: nat,
                             ordinal: nat, weekday: nat)
    requires WellFormed(parts) && weekday < 7 && startDay > 0
    requires Part("FREQ", "MONTHLY") in parts && Part("BYDAY", "-" + Digits(ordinal) + Code(weekday)) in parts
    ensures var r := Convert(Print(parts, prefixed), startWeekday, startDay);
      r.weekday == weekday && r.nthWeek == Some(CountWeekday(first, WeekdayOf(first, startDay), startDay))
  {
    ParseReadsPrint(parts, prefixed);
    assert forall c :: c in "-" + Digits(ordinal) ==> !IsCapital(c);
    WeekdayWithOrdinal("-" + Digits(ordinal), weekday);
    NthWeekCountsWeekday(first, startDay);
  }

  // --- The parsing loop ----------------------------------------------------

  method ConvertRrule(rule: string, startWeekday: nat, startDay: nat) returns (r: Rule)
    ensures r == Convert(rule, startWeekday, startDay)
  {
    var parts: map<string, string> := map[];
    var texts := Split(StripPrefix(rule), ';');
    for i := 0 to |texts|
      invariant parts == CollectParts(texts[..i])
    {
      assert texts[..i + 1][..i] == texts[..i];
      var fields := Split(texts[i], '=');
      if |fields| >= 2 && fields[0] != "" && fields[1] != "" {
        parts := parts[fields[0] := fields[1]];
      }
    }
    assert texts[..|texts|] == texts;
    var interval := PartOr(parts, "INTERVAL", "1");
    var freq := if PartOr(parts, "FREQ", "") == "MONTHLY" then Monthly else Weekly;
    var byDay := PartOr(parts, "BYDAY", "");
    var weekday := DayOf(Capitals(byDay)).GetOr(startWeekday);
    var nthWeek := if freq.Monthly? then Some((startDay + 6) / 7) else None;
    r := Rule(freq, if IsNumeral(interval) then Some(Value(interval)) else None, weekday, nthWeek);
  }
}
