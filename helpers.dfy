/**
 * The shared helpers of the web client (web/lib/helpers/helpers.ts): list and date
 * utilities, the partial-object builder `pick`, and the input normalisers that the
 * forms re-apply on every keystroke.
 *
 * Dates are millisecond timestamps (`Date.getTime()`); a calendar day is `DayMs`
 * milliseconds (daylight-saving shifts are not modelled).
 */
module Helpers {
  import opened Wrappers
  import opened Seqs
  import JsMap

  // ---------------------------------------------------------------- capitalizeFirstLetter

  /**
   * `text.charAt(0).toUpperCase() + text.slice(1)`. `upper` is the locale-independent
   * upper-casing of one character, which may yield several characters ('ß' gives "SS").
   */
  function CapitalizeFirstLetter(text: string, upper: char -> string): (r: string)
    ensures text == [] ==> r == []
    ensures text != [] ==> |r| == |upper(text[0])| + |text| - 1
    ensures text != [] ==> r[|upper(text[0])|..] == text[1..] && r[..|upper(text[0])|] == upper(text[0])
  {
    if text == [] then [] else upper(text[0]) + text[1..]
  }

  // ---------------------------------------------------------------- dates

  const DayMs: int := 86_400_000

  /**
   * The timestamps `start, start + 1 day, ...` up to and including `end`: the values
   * the loop in `datesBetween` pushes.
   */
  function DaySeries(start: int, end: int): seq<int>
    decreases end - start
  {
    if start > end then [] else [start] + DaySeries(start + DayMs, end)
  }

  /** `datesBetween(start, end)`: a loop that pushes a copy of `date` and advances it one day. */
  method DatesBetween(start: int, end: int) returns (dates: seq<int>)
    ensures dates == DaySeries(start, end)
  {
    dates := [];
    var date := start;
    while date <= end
      invariant dates + DaySeries(date, end) == DaySeries(start, end)
      decreases end - date
    {
      dates := dates + [date];
      date := date + DayMs;
    }
  }

  /** `isBetweenDates(start, end, date)` */
  predicate IsBetweenDates(start: int, end: int, date: int) {
    date >= start && date <= end
  }

  /**
   * The series has one entry per day from `start` while it is not after `end`:
   * `(end - start) / DayMs + 1` entries, the i-th one `i` days after `start`.
   */
  lemma {:induction false} DaySeriesShape(start: int, end: int)
    ensures |DaySeries(start, end)| == if start <= end then (end - start) / DayMs + 1 else 0
    ensures forall i :: 0 <= i < |DaySeries(start, end)| ==> DaySeries(start, end)[i] == start + i * DayMs
    decreases end - start
  {
    if start <= end {
      DaySeriesShape(start + DayMs, end);
      var rest := DaySeries(start + DayMs, end);
      assert |rest| == (end - start) / DayMs by {
        if start + DayMs <= end {
          assert (end - start) / DayMs == (end - start - DayMs) / DayMs + 1;
        }
      }
    }
  }

  /**
   * A timestamp is in the series exactly when `isBetweenDates(start, end, ·)` holds of it
   * and it lies a whole number of days after `start`.
   */
  lemma DaySeriesMembers(start: int, end: int, x: int)
    ensures x in DaySeries(start, end) <==> IsBetweenDates(start, end, x) && (x - start) % DayMs == 0
  {
    DaySeriesShape(start, end);
    var s := DaySeries(start, end);
    if IsBetweenDates(start, end, x) && (x - start) % DayMs == 0 {
      var i := (x - start) / DayMs;
      assert x == start + i * DayMs;
      assert s[i] == x;
    }
  }

  /** With day-aligned arguments (day numbers `s` and `e`) the series is `e - s + 1` days long. */
  lemma DaySeriesOfDayNumbers(s: int, e: int)
    ensures |DaySeries(s * DayMs, e * DayMs)| == if s <= e then e - s + 1 else 0
  {
    DaySeriesShape(s * DayMs, e * DayMs);
    assert e * DayMs - s * DayMs == (e - s) * DayMs;
  }

  /** `datesAfterDate(dates, date)`: `dates.filter(d => d >= date)`. */
  function DatesAfterDate(dates: seq<int>, date: int): seq<int> {
    Filter(dates, d => d >= date)
  }

  /**
   * The result holds exactly the dates not before the cutoff, as an order-preserving
   * subsequence of the input, each as often as the input has it.
   */
  lemma DatesAfterDateSpec(dates: seq<int>, date: int)
    ensures forall d :: d in DatesAfterDate(dates, date) <==> d in dates && d >= date
    ensures Subseq(DatesAfterDate(dates, date), dates)
    ensures forall d :: multiset(DatesAfterDate(dates, date))[d] == if d >= date then multiset(dates)[d] else 0
  {
    forall d ensures d in DatesAfterDate(dates, date) <==> d in dates && d >= date {
      FilterMembership(dates, d => d >= date, d);
    }
    FilterSubseq(dates, d => d >= date);
    forall d ensures multiset(DatesAfterDate(dates, date))[d] == if d >= date then multiset(dates)[d] else 0 {
      FilterMultiset(dates, d => d >= date, d);
    }
  }

  // ---------------------------------------------------------------- filterUniqueById

  /** `elements.map(item => [item.id, item])` */
  function IdEntries<T>(elements: seq<T>, id: T -> string): (es: seq<(string, T)>)
    ensures |es| == |elements|
    ensures forall i :: 0 <= i < |elements| ==> es[i] == (id(elements[i]), elements[i])
  {
    seq(|elements|, i requires 0 <= i < |elements| => (id(elements[i]), elements[i]))
  }

  /** `Array.from(new Map(elements.map(item => [item.id, item])).values())` */
  function FilterUniqueById<T>(elements: seq<T>, id: T -> string): seq<T> {
    JsMap.FromEntries(IdEntries(elements, id)).Values()
  }

  /** The ids of a list, in order. */
  function Ids<T>(elements: seq<T>, id: T -> string): (ks: seq<string>)
    ensures |ks| == |elements| && forall i :: 0 <= i < |elements| ==> ks[i] == id(elements[i])
  {
    seq(|elements|, i requires 0 <= i < |elements| => id(elements[i]))
  }

  /**
   * `filterUniqueById` keeps one element per id: the ids of the result are pairwise
   * distinct and are exactly the ids of the input, listed in the order in which each
   * id first occurs; the element kept for an id is the LAST input element with it.
   */
  lemma FilterUniqueByIdSpec<T>(elements: seq<T>, id: T -> string)
    ensures var r := FilterUniqueById(elements, id);
      && (forall i, j :: 0 <= i < j < |r| ==> id(r[i]) != id(r[j]))
      && (forall k :: k in Ids(r, id) <==> k in Ids(elements, id))
      && JsMap.FirstOccurrenceOrder(Ids(r, id), Ids(elements, id))
      && (forall i :: 0 <= i < |r| ==>
            (exists j :: 0 <= j < |elements| && elements[j] == r[i]
                         && forall j' :: j < j' < |elements| ==> id(elements[j']) != id(r[i])))
  {
    var es := IdEntries(elements, id);
    var m := JsMap.FromEntries(es);
    var r := FilterUniqueById(elements, id);
    JsMap.FromEntriesKeys(es);
    JsMap.FromEntriesOrder(es);
    assert JsMap.KeysOf(es) == Ids(elements, id);
    // the element stored under each key carries that key as its id
    forall i | 0 <= i < |r|
      ensures id(r[i]) == m.keys[i]
      ensures exists j :: (0 <= j < |elements| && elements[j] == r[i]
                           && forall j' :: j < j' < |elements| ==> id(elements[j']) != id(r[i]))
    {
      var k := m.keys[i];
      assert k in m.entries;
      JsMap.FromEntriesLastWins(es, k);
      var j :| 0 <= j < |es| && es[j] == (k, m.entries[k]) && forall j' :: j < j' < |es| ==> es[j'].0 != k;
      assert elements[j] == r[i];
    }
    assert Ids(r, id) == m.keys;
  }

  // ---------------------------------------------------------------- pick

  /**
   * `pick(obj, ...keys)`: `Object.fromEntries(keys.map(key => [key, obj[key]]))`.
   * `None` stands for `undefined`, the value read for a key `obj` does not have.
   */
  function Pick<V>(obj: map<string, V>, keys: seq<string>): (r: map<string, Option<V>>)
    ensures forall k :: k in r <==> k in keys
    ensures forall k :: k in r ==> r[k] == if k in obj then Some(obj[k]) else None
  {
    map k | k in keys :: if k in obj then Some(obj[k]) else None
  }

  /** The keys a JSON body keeps: `JSON.stringify` drops the keys whose value is `undefined`. */
  function Defined<V>(r: map<string, Option<V>>): (d: map<string, V>)
    ensures forall k :: k in d <==> k in r && r[k].Some?
  {
    map k | k in r && r[k].Some? :: r[k].value
  }

  /**
   * The dirty-field update the edit forms send: picking the dirty keys of the form values
   * and applying them as a partial update (`entity + patch`) changes exactly the dirty
   * fields the form holds, to the form's values, and leaves every other field as it was.
   */
  lemma {:induction false} PickPartialUpdate<V>(entity: map<string, V>, form: map<string, V>, dirty: seq<string>)
    ensures var updated := entity + Defined(Pick(form, dirty));
      && (forall k :: k in updated <==> k in entity || (k in dirty && k in form))
      && (forall k :: k in dirty && k in form ==> updated[k] == form[k])
      && (forall k :: k in entity && !(k in dirty && k in form) ==> updated[k] == entity[k])
  {
  }

  // ---------------------------------------------------------------- formatPhoneNumber, formatNumber

  /** `\d` in a JavaScript regular expression: an ASCII digit. */
  predicate IsDigit(c: char) {
    '0' <= c <= '9'
  }

  predicate AllDigits(s: string) {
    forall i :: 0 <= i < |s| ==> IsDigit(s[i])
  }

  /** `value.replace(/\D/g, '')`: the digits of `value`, in order. */
  function Digits(value: string): (r: string)
    ensures AllDigits(r)
  {
    Filter(value, IsDigit)
  }

  /** `formatNumber(value)` */
  function FormatNumber(value: string): string {
    Digits(value)
  }

  /** A string is left unchanged by `formatNumber` exactly when it is all digits. */
  lemma FormatNumberFixedPoints(value: string)
    ensures FormatNumber(value) == value <==> AllDigits(value)
  {
    if AllDigits(value) {
      FilterKeepsAll(value, IsDigit);
    }
  }

  /**
   * `formatNumber` is idempotent, and keeps exactly the digits of its input, in order,
   * each digit as often as the input has it.
   */
  lemma FormatNumberSpec(value: string)
    ensures FormatNumber(FormatNumber(value)) == FormatNumber(value)
    ensures Subseq(FormatNumber(value), value)
    ensures forall c :: c in FormatNumber(value) <==> c in value && IsDigit(c)
    ensures forall c :: multiset(FormatNumber(value))[c] == if IsDigit(c) then multiset(value)[c] else 0
  {
    FormatNumberFixedPoints(FormatNumber(value));
    FilterSubseq(value, IsDigit);
    forall c ensures c in FormatNumber(value) <==> c in value && IsDigit(c) {
      FilterMembership(value, IsDigit, c);
    }
    forall c ensures multiset(FormatNumber(value))[c] == if IsDigit(c) then multiset(value)[c] else 0 {
      FilterMultiset(value, IsDigit, c);
    }
  }

  /** `limited.replace(/(\d{3})(?=\d)/g, '$1 ')` on a string of digits: a space after every
   *  complete group of three digits that another digit follows. */
  function GroupDigits(s: string): string
    decreases |s|
  {
    if |s| > 3 then s[..3] + " " + GroupDigits(s[3..]) else s
  }

  /** The grouped form: spaces exactly at every fourth position, digits elsewhere, no trailing space. */
  predicate GroupedShape(g: string) {
    && (forall i :: 0 <= i < |g| ==> (g[i] == ' ' <==> i % 4 == 3))
    && (forall i :: 0 <= i < |g| && g[i] != ' ' ==> IsDigit(g[i]))
    && (|g| > 0 ==> g[|g| - 1] != ' ')
  }

  lemma {:induction false} GroupDigitsSpec(s: string)
    requires AllDigits(s)
    ensures GroupedShape(GroupDigits(s))
    ensures Digits(GroupDigits(s)) == s
    decreases |s|
  {
    if |s| > 3 {
      var t := s[3..];
      GroupDigitsSpec(t);
      var g, gt := GroupDigits(s), GroupDigits(t);
      assert g == s[..3] + " " + gt;
      forall i | 0 <= i < |g| ensures (g[i] == ' ' <==> i % 4 == 3) {
        if i >= 4 { assert g[i] == gt[i - 4]; }
      }
      FilterConcat(s[..3] + " ", gt, IsDigit);
      FilterConcat(s[..3], " ", IsDigit);
      FilterKeepsAll(s[..3], IsDigit);
      assert Digits(" ") == [];
      assert s[..3] + t == s;
    } else {
      FilterKeepsAll(s, IsDigit);
    }
  }

  function StartsWithPlus(value: string): bool {
    |value| > 0 && value[0] == '+'
  }

  /** `formatPhoneNumber(value)`: at most 12 digits after a leading `+`, 9 otherwise, grouped by three. */
  function FormatPhoneNumber(value: string): string {
    var phoneNumber := Digits(value);
    var maxDigits := if StartsWithPlus(value) then 12 else 9;
    var limited := if |phoneNumber| <= maxDigits then phoneNumber else phoneNumber[..maxDigits];
    var formatted := GroupDigits(limited);
    if StartsWithPlus(value) then "+" + formatted else formatted
  }

  /**
   * The phone number keeps the first min(n, 12) digits when the input starts with `+`
   * and the first min(n, 9) otherwise, drops every other character, begins with `+`
   * exactly when the input did, and is otherwise grouped by three with single spaces
   * and no trailing space.
   */
  lemma FormatPhoneNumberSpec(value: string)
    ensures var r := FormatPhoneNumber(value);
      var maxDigits := if StartsWithPlus(value) then 12 else 9;
      var n := |Digits(value)|;
      && StartsWithPlus(r) == StartsWithPlus(value)
      && Digits(r) == Digits(value)[..if n <= maxDigits then n else maxDigits]
      && GroupedShape(if StartsWithPlus(r) then r[1..] else r)
  {
    var phoneNumber := Digits(value);
    var maxDigits := if StartsWithPlus(value) then 12 else 9;
    var limited := if |phoneNumber| <= maxDigits then phoneNumber else phoneNumber[..maxDigits];
    assert AllDigits(limited);
    GroupDigitsSpec(limited);
    var g := GroupDigits(limited);
    if StartsWithPlus(value) {
      FilterConcat("+", g, IsDigit);
      assert Digits("+") == [];
      assert ("+" + g)[1..] == g;
    } else {
      assert |g| > 0 ==> g[0] != '+' by { if |g| > 0 { assert IsDigit(g[0]); } }
    }
  }

  /** `formatPhoneNumber` is idempotent, so re-applying it on every change is harmless. */
  lemma FormatPhoneNumberIdempotent(value: string)
    ensures FormatPhoneNumber(FormatPhoneNumber(value)) == FormatPhoneNumber(value)
  {
    var phoneNumber := Digits(value);
    var maxDigits := if StartsWithPlus(value) then 12 else 9;
    var limited := if |phoneNumber| <= maxDigits then phoneNumber else phoneNumber[..maxDigits];
    var r := FormatPhoneNumber(value);
    assert r == if StartsWithPlus(value) then "+" + GroupDigits(limited) else GroupDigits(limited);
    FormatPhoneNumberSpec(value);
    assert StartsWithPlus(r) == StartsWithPlus(value);
    assert Digits(r) == limited;
    assert |Digits(r)| <= maxDigits;
  }

  // ---------------------------------------------------------------- formatName

  /** `\s` in a JavaScript regular expression, which is also what `trimStart` removes. */
  predicate IsWhitespace(c: char) {
    || c == ' ' || c == '\t' || c == '\n' || c == '\r' || c == '\U{000B}' || c == '\U{000C}'
    || c == '\U{00A0}' || c == '\U{1680}' || ('\U{2000}' <= c <= '\U{200A}')
    || c == '\U{2028}' || c == '\U{2029}' || c == '\U{202F}' || c == '\U{205F}'
    || c == '\U{3000}' || c == '\U{FEFF}'
  }

  /** `s.trimStart()` */
  function TrimStart(s: string): (r: string)
    ensures |r| > 0 ==> !IsWhitespace(r[0])
    ensures |r| <= |s| && r == s[|s| - |r|..]
    ensures forall i :: 0 <= i < |s| - |r| ==> IsWhitespace(s[i])
  {
    if s != [] && IsWhitespace(s[0]) then TrimStart(s[1..]) else s
  }

  /** `s.replace(/\s+/g, ' ')`: every maximal run of whitespace becomes one space. */
  function CollapseWhitespace(s: string): string
    decreases |s|
  {
    if s == [] then []
    else if IsWhitespace(s[0]) then " " + CollapseWhitespace(TrimStart(s[1..]))
    else [s[0]] + CollapseWhitespace(s[1..])
  }

  /** The characters `[^\p{L}\s]+` does not remove: letters (`isLetter`, Unicode `\p{L}`) and whitespace. */
  predicate KeptInName(isLetter: char -> bool, c: char) {
    isLetter(c) || IsWhitespace(c)
  }

  function KeptInNameFilter(isLetter: char -> bool): char -> bool {
    c => KeptInName(isLetter, c)
  }

  /** `formatName(value)`: drop what is neither letter nor whitespace, collapse whitespace runs, trim the front. */
  function FormatName(value: string, isLetter: char -> bool): string {
    TrimStart(CollapseWhitespace(Filter(value, KeptInNameFilter(isLetter))))
  }

  /** The letters of a name: what `isLetter` accepts and `\s` does not match. */
  function LetterOf(isLetter: char -> bool): char -> bool {
    c => isLetter(c) && !IsWhitespace(c)
  }

  /** Only letters and single spaces (a collapsed string). */
  predicate LettersAndSingleSpaces(s: string, isLetter: char -> bool) {
    && (forall i :: 0 <= i < |s| ==> s[i] == ' ' || (isLetter(s[i]) && !IsWhitespace(s[i])))
    && (forall i :: 0 <= i < |s| - 1 ==> !(s[i] == ' ' && s[i + 1] == ' '))
  }

  /** A normalised name: letters and single spaces only, no leading space. */
  predicate NameShape(s: string, isLetter: char -> bool) {
    LettersAndSingleSpaces(s, isLetter) && (|s| > 0 ==> s[0] != ' ')
  }

  /** Putting one character in front of a collapsed string keeps it collapsed, unless it makes two spaces. */
  lemma ConsShape(x: char, ct: string, isLetter: char -> bool)
    requires x == ' ' || (isLetter(x) && !IsWhitespace(x))
    requires LettersAndSingleSpaces(ct, isLetter)
    requires x == ' ' && |ct| > 0 ==> ct[0] != ' '
    ensures LettersAndSingleSpaces([x] + ct, isLetter)
  {
    var c := [x] + ct;
    assert forall i :: 1 <= i < |c| ==> c[i] == ct[i - 1];
  }

  /** After collapsing, the only whitespace is single spaces, and nothing else was added. */
  lemma {:induction false} CollapseShape(s: string, isLetter: char -> bool)
    requires forall i :: 0 <= i < |s| ==> KeptInName(isLetter, s[i])
    ensures LettersAndSingleSpaces(CollapseWhitespace(s), isLetter)
    decreases |s|
  {
    if s != [] {
      if IsWhitespace(s[0]) {
        var t := TrimStart(s[1..]);
        assert forall i :: 0 <= i < |t| ==> t[i] == s[|s| - |t| + i];
        CollapseShape(t, isLetter);
        var ct := CollapseWhitespace(t);
        assert |ct| > 0 ==> ct[0] != ' ' by {
          if |ct| > 0 { assert t != [] && !IsWhitespace(t[0]) && ct[0] == t[0]; }
        }
        ConsShape(' ', ct, isLetter);
      } else {
        assert KeptInName(isLetter, s[0]);
        CollapseShape(s[1..], isLetter);
        ConsShape(s[0], CollapseWhitespace(s[1..]), isLetter);
      }
    }
  }

  /** Trimming the front of a collapsed string keeps it collapsed. */
  lemma TrimStartShape(c: string, isLetter: char -> bool)
    requires LettersAndSingleSpaces(c, isLetter)
    ensures NameShape(TrimStart(c), isLetter)
  {
    var r := TrimStart(c);
    var k := |c| - |r|;
    assert forall i :: 0 <= i < |r| ==> r[i] == c[k + i];
  }

  /** Dropping the first character of a collapsed string keeps it collapsed. */
  lemma ShapeTail(s: string, isLetter: char -> bool)
    requires s != [] && LettersAndSingleSpaces(s, isLetter)
    ensures LettersAndSingleSpaces(s[1..], isLetter)
  {
    var t := s[1..];
    assert forall i :: 0 <= i < |t| ==> t[i] == s[i + 1];
  }

  /** Collapsing a string that already has only single spaces as whitespace changes nothing. */
  lemma {:induction false} CollapseIdentity(s: string, isLetter: char -> bool)
    requires LettersAndSingleSpaces(s, isLetter)
    ensures CollapseWhitespace(s) == s
    decreases |s|
  {
    if s != [] {
      var t := s[1..];
      ShapeTail(s, isLetter);
      CollapseIdentity(t, isLetter);
      if IsWhitespace(s[0]) {
        assert s[0] == ' ';
        if |t| > 0 {
          assert t[0] == s[1] && s[1] != ' ';
          assert !IsWhitespace(t[0]);
        }
        assert TrimStart(t) == t;
        assert CollapseWhitespace(s) == " " + CollapseWhitespace(t);
      } else {
        assert CollapseWhitespace(s) == [s[0]] + CollapseWhitespace(t);
      }
      assert s == [s[0]] + t;
    }
  }

  /** Trimming the front removes no letter. */
  lemma {:induction false} TrimStartLetters(t: string, isLetter: char -> bool)
    ensures Filter(TrimStart(t), LetterOf(isLetter)) == Filter(t, LetterOf(isLetter))
    decreases |t|
  {
    if t != [] && IsWhitespace(t[0]) {
      TrimStartLetters(t[1..], isLetter);
    }
  }

  /** Collapsing whitespace removes no letter and adds none. */
  lemma {:induction false} CollapseLetters(s: string, isLetter: char -> bool)
    ensures Filter(CollapseWhitespace(s), LetterOf(isLetter)) == Filter(s, LetterOf(isLetter))
    decreases |s|
  {
    if s != [] {
      if IsWhitespace(s[0]) {
        var t := TrimStart(s[1..]);
        CollapseLetters(t, isLetter);
        TrimStartLetters(s[1..], isLetter);
        var c := CollapseWhitespace(t);
        assert (" " + c)[0] == ' ' && (" " + c)[1..] == c;
      } else {
        var c := CollapseWhitespace(s[1..]);
        CollapseLetters(s[1..], isLetter);
        assert ([s[0]] + c)[0] == s[0] && ([s[0]] + c)[1..] == c;
      }
    }
  }

  /**
   * `formatName` yields letters and single spaces, never starts with whitespace, never
   * has two spaces in a row (one trailing space may remain), keeps every letter of its
   * input in order, and is idempotent.
   */
  lemma FormatNameSpec(value: string, isLetter: char -> bool)
    ensures NameShape(FormatName(value, isLetter), isLetter)
    ensures Filter(FormatName(value, isLetter), LetterOf(isLetter)) == Filter(value, LetterOf(isLetter))
    ensures FormatName(FormatName(value, isLetter), isLetter) == FormatName(value, isLetter)
  {
    var kept := Filter(value, KeptInNameFilter(isLetter));
    FilterOfFilter(value, KeptInNameFilter(isLetter), LetterOf(isLetter));
    CollapseLetters(kept, isLetter);
    TrimStartLetters(CollapseWhitespace(kept), isLetter);
    forall i | 0 <= i < |kept| ensures KeptInName(isLetter, kept[i]) {
      assert kept[i] in kept;
    }
    CollapseShape(kept, isLetter);
    var r := FormatName(value, isLetter);
    TrimStartShape(CollapseWhitespace(kept), isLetter);
    assert forall i :: 0 <= i < |r| ==> KeptInNameFilter(isLetter)(r[i]);
    FilterKeepsAll(r, KeptInNameFilter(isLetter));
    CollapseIdentity(r, isLetter);
  }

  // ---------------------------------------------------------------- allowForNumber

  const AllowedChars: string := "0123456789"
  const AllowedKeys: seq<string> := ["Backspace", "Delete", "ArrowLeft", "ArrowRight", "Tab"]

  /**
   * `allowForNumber(e)`: whether `preventDefault` is called for the key `e.key`. The test is
   * `allowedChars.includes(e.key)`, a substring test, so any run of consecutive digits
   * such as "45" would also pass.
   */
  function AllowForNumber(key: string): (preventDefault: bool) {
    !Includes(AllowedChars, key) && key !in AllowedKeys
  }

  /** A block of `AllowedChars` is made of digits. */
  lemma IncludedDigits(key: string)
    requires Includes(AllowedChars, key)
    ensures AllDigits(key)
  {
    var i :| 0 <= i <= |AllowedChars| - |key| && key <= AllowedChars[i..];
    assert forall k :: 0 <= k < |AllowedChars| ==> IsDigit(AllowedChars[k]);
    forall j | 0 <= j < |key| ensures IsDigit(key[j]) {
      assert key[j] == AllowedChars[i + j];
    }
  }

  /**
   * Only the editing keys and keys made of digits go through: every other key, such as
   * "Enter", "ArrowUp" or "a", is blocked. A one-character key goes through exactly when
   * it is a digit; the editing keys always do.
   */
  lemma AllowForNumberSpec(key: string)
    ensures !AllowForNumber(key) ==> key in AllowedKeys || AllDigits(key)
    ensures |key| == 1 ==> (AllowForNumber(key) <==> !IsDigit(key[0]))
    ensures key in AllowedKeys ==> !AllowForNumber(key)
  {
    if Includes(AllowedChars, key) {
      IncludedDigits(key);
    }
    if |key| == 1 {
      if IsDigit(key[0]) {
        var i := key[0] as int - '0' as int;
        assert AllowedChars[i] == key[0];
        assert key <= AllowedChars[i..];
      }
    }
  }

  /**
   * The substring test lets through more than single digits: the empty key and runs of
   * consecutive digits such as "45" pass, while "54" is blocked.
   */
  lemma AllowForNumberSubstrings()
    ensures !AllowForNumber("") && !AllowForNumber("45")
    ensures AllowForNumber("54")
  {
    assert "" <= AllowedChars[0..];
    assert "45" <= AllowedChars[4..];
    forall i | 0 <= i <= |AllowedChars| - 2 ensures !("54" <= AllowedChars[i..]) {
      assert AllowedChars[i] != '5' || AllowedChars[i + 1] != '4';
    }
  }
}
