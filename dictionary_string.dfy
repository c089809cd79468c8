/**
  The dictionary literal `%{key=value, key='text', key={...}}`: a character
  scanner that starts after the two-character opener, switches between
  key, value and transition modes, decodes a few escapes, recurses into
  nested dictionaries, and turns each value into a constant or an
  interpolation.
*/
module DictionaryString {
  import opened Wrappers
  import opened HostTypes
  import opened ExpressionTree
  import opened Strings

  /** A dictionary entry's value. */
  datatype DictValue =
    | Nested(entries: map<string, DictValue>)
    | TextConst(s: string)
    | IntConst(i: int)
    | FloatConst(text: string)
    | InterpolationPart(part: Expr)        // the single part of an interpolated string
    | Interpolation(parts: seq<Expr>)      // an interpolated string of several parts
    | NullEntry                            // the interpolation callback returned null

  /** The interpolation callback: the parts of the interpolated string, or `None` for null. */
  type Interpolator = string -> Option<seq<Expr>>

  /**
    The scanner's state: the four mode flags, the depth of braces inside a
    value, the key and value builders, the entries so far, and the index at
    which the scan last stopped or flushed.
  */
  datatype ScanState = ScanState(
    inKey: bool,
    valueStarted: bool,
    quoted: bool,
    inTransition: bool,
    depth: int,
    key: string,
    val: string,
    entries: map<string, DictValue>,
    lastIndex: int)

  function Initial(lastIndex: int): ScanState {
    ScanState(false, false, false, true, 0, "", "", map[], lastIndex)
  }

  /** Back to transition mode after an entry. */
  function Reset(st: ScanState): ScanState {
    st.(inKey := false, valueStarted := false, inTransition := true, quoted := false)
  }

  /** The number of occurrences of `c` in `s`. */
  function Occurrences(s: string, c: char): nat
    decreases |s|
  {
    if s == [] then 0 else (if s[0] == c then 1 else 0) + Occurrences(s[1..], c)
  }

  /** A character counted at least once occurs in the text. */
  lemma {:induction false} OccursIn(s: string, c: char)
    requires Occurrences(s, c) > 0
    ensures c in s
    decreases |s|
  {
    if s[0] != c {
      OccursIn(s[1..], c);
    }
  }

  /** A sign as the invariant culture writes it. */
  predicate IsSign(c: char) { c == '-' || c == '+' }

  /** The digits and point before any exponent: exactly one point and at least one digit. */
  predicate IsMantissa(m: string) {
    |m| >= 2 && Occurrences(m, '.') == 1 && forall j | 0 <= j < |m| :: IsDigit(m[j]) || m[j] == '.'
  }

  /** An exponent: `e` or `E`, an optional sign, and at least one digit. */
  predicate IsExponent(x: string) {
    |x| >= 2 && (x[0] == 'e' || x[0] == 'E')
    && var digits := if IsSign(x[1]) then x[2..] else x[1..];
       digits != [] && AllDigits(digits)
  }

  /** The index of the first `e` or `E` in `s`, if any. */
  function ExponentAt(s: string): (r: Option<nat>)
    ensures r.Some? ==> r.value < |s| && (s[r.value] == 'e' || s[r.value] == 'E')
    ensures r.Some? ==> forall j | 0 <= j < r.value :: s[j] != 'e' && s[j] != 'E'
    ensures r.None? ==> forall j | 0 <= j < |s| :: s[j] != 'e' && s[j] != 'E'
    decreases |s|
  {
    if s == [] then None
    else if s[0] == 'e' || s[0] == 'E' then Some(0)
    else match ExponentAt(s[1..])
      case None => None
      case Some(k) => Some(k + 1)
  }

  /**
    The texts with a point that `Convert.ToSingle` accepts under the
    invariant culture (`NumberStyles.Float`): an optional sign, a mantissa
    with one point, and an optional exponent.
  */
  predicate IsSingleText(s: string) {
    var body := if s != [] && IsSign(s[0]) then s[1..] else s;
    match ExponentAt(body)
    case None => IsMantissa(body)
    case Some(k) => IsMantissa(body[..k]) && IsExponent(body[k..])
  }

  /** A mantissa followed by an optional exponent, after an optional sign, is a Single. */
  lemma {:induction false} SingleTextShapes(sign: string, m: string, x: string)
    requires sign == [] || (|sign| == 1 && IsSign(sign[0]))
    requires IsMantissa(m) && (x == [] || IsExponent(x))
    ensures IsSingleText(sign + m + x)
  {
    var s := sign + m + x;
    var body := if s != [] && IsSign(s[0]) then s[1..] else s;
    assert !IsSign(m[0]) by { assert IsDigit(m[0]) || m[0] == '.'; }
    assert body == m + x;
    assert forall j | 0 <= j < |m| :: body[j] != 'e' && body[j] != 'E' by {
      forall j | 0 <= j < |m| ensures body[j] != 'e' && body[j] != 'E' {
        assert body[j] == m[j] && (IsDigit(m[j]) || m[j] == '.');
      }
    }
    if x == [] {
      assert body == m;
      assert ExponentAt(body).None?;
    } else {
      assert body[|m|] == x[0];
      assert ExponentAt(body) == Some(|m|);
      assert body[..|m|] == m && body[|m|..] == x;
    }
  }

  /** Text without a mantissa digit, such as a lone point, is no Single. */
  lemma {:induction false} LonePointIsNoSingle(sign: string)
    requires sign == [] || (|sign| == 1 && IsSign(sign[0]))
    ensures !IsSingleText(sign + ".")
    ensures !IsSingleText(sign + ".e1")
  {
    var s1, s2 := sign + ".", sign + ".e1";
    assert (if s1 != [] && IsSign(s1[0]) then s1[1..] else s1) == ".";
    assert (if s2 != [] && IsSign(s2[0]) then s2[1..] else s2) == ".e1";
    assert ExponentAt(".") == None;
    assert ExponentAt(".e1") == Some(1);
    assert ".e1"[..1] == ".";
  }

  /**
    `ProcessDictEntry` on text: the trimmed value is handed to the
    interpolation callback when it holds `$` (a single part is unwrapped);
    otherwise a quoted value is text, and an unquoted one is a Single when it
    holds `.` and an Int32 otherwise.
  */
  function EntryValue(interp: Interpolator, raw: string, isText: bool): (r: Result<DictValue>)
    ensures r.Err? ==> r.error.ArgumentError? && !isText
    ensures r.Ok? && r.value.FloatConst? ==> IsSingleText(r.value.text) && '$' !in r.value.text
    ensures r.Ok? && r.value.IntConst? ==> MinInt32 <= r.value.i <= MaxInt32
    ensures r.Ok? && r.value.TextConst? ==> isText && '$' !in r.value.s
  {
    var content := Trim(raw);
    if '$' in content then
      var parts := interp(content);
      if parts.Some? && |parts.value| == 1 then Ok(InterpolationPart(parts.value[0]))
      else if parts.Some? then Ok(Interpolation(parts.value))
      else Ok(NullEntry)
    else if isText then Ok(TextConst(content))
    else if '.' in content then
      if IsSingleText(content) then Ok(FloatConst(content))
      else Err(ArgumentError("Could not convert dictionary value to Single"))
    else
      match ParseInt32(content)
      case Ok(v) => Ok(IntConst(v))
      case Err(_) => Err(ArgumentError("Could not convert dictionary value to Int32"))
  }

  /**
    What an entry's value becomes: interpolation when its trimmed text holds
    `$` (a single part unwrapped, null kept as null), else text when quoted,
    else a Single when it holds `.` and an Int32 otherwise; a number that
    does not convert is an argument error.
  */
  lemma {:induction false} EntryValueMeaning(interp: Interpolator, raw: string, isText: bool)
    ensures var content, v := Trim(raw), EntryValue(interp, raw, isText);
      && ('$' in content && interp(content).Some? && |interp(content).value| == 1 ==>
            v == Ok(InterpolationPart(interp(content).value[0])))
      && ('$' in content && interp(content).None? ==> v == Ok(NullEntry))
      && ('$' !in content && isText ==> v == Ok(TextConst(content)))
      && ('$' !in content && !isText && '.' !in content ==>
            (v.Ok? <==> ParseInt32(content).Ok?) && (v.Ok? ==> v.value == IntConst(ParseInt32(content).value)))
      && ('$' !in content && !isText && '.' in content ==>
            (v.Ok? <==> IsSingleText(content)) && (v.Ok? ==> v.value == FloatConst(content)))
      && (v.Err? ==> v.error.ArgumentError?)
  {
  }

  /** An Int32 written out in decimal comes back as that integer. */
  lemma {:induction false} IntegerValueRoundTrip(interp: Interpolator, n: int)
    requires MinInt32 <= n <= MaxInt32
    ensures EntryValue(interp, ShowInt(n), false) == Ok(IntConst(n))
  {
    var s := ShowInt(n);
    ParseShowRoundTrip(n);
    assert forall j | 0 <= j < |s| :: IsDigit(s[j]) || s[j] == '-';
    assert !IsWhiteSpace(s[0]) && !IsWhiteSpace(s[|s| - 1]);
    assert Trim(s) == s;
    assert '$' !in s && '.' !in s;
  }

  /** Such a literal has no blank at either end, holds a point and holds no `$`. */
  lemma {:induction false} FloatTextIsPlain(m: string, x: string)
    requires IsMantissa(m) && (x == [] || IsExponent(x))
    ensures var s := m + x; !IsWhiteSpace(s[0]) && !IsWhiteSpace(s[|s| - 1]) && '.' in s && '$' !in s
  {
    var s := m + x;
    assert s[0] == m[0] && (IsDigit(m[0]) || m[0] == '.');
    var last := s[|s| - 1];
    if x == [] {
      assert last == m[|m| - 1] && (IsDigit(last) || last == '.');
    } else {
      var digits := if IsSign(x[1]) then x[2..] else x[1..];
      assert last == digits[|digits| - 1] && IsDigit(last);
    }
    OccursIn(m, '.');
    var j :| 0 <= j < |m| && m[j] == '.';
    assert s[j] == '.';
    forall j | 0 <= j < |s| ensures s[j] != '$' {
      if j < |m| {
        assert s[j] == m[j];
      } else {
        assert s[j] == x[j - |m|];
        var k := j - |m|;
        if k >= 1 {
          var d := if IsSign(x[1]) then 2 else 1;
          if k >= d { assert x[k] == (if IsSign(x[1]) then x[2..] else x[1..])[k - d]; }
        }
      }
    }
  }

  /** An unquoted mantissa with an optional exponent, such as `1.5e3`, is kept as a Single. */
  lemma {:induction false} FloatValueAccepted(interp: Interpolator, m: string, x: string)
    requires IsMantissa(m) && (x == [] || IsExponent(x))
    ensures EntryValue(interp, m + x, false) == Ok(FloatConst(m + x))
  {
    SingleTextShapes([], m, x);
    assert [] + m + x == m + x;
    FloatTextIsPlain(m, x);
    assert Trim(m + x) == m + x;
  }

  /**
    `ProcessDictEntry` on a value: the trimmed key must not start with `$`;
    keys are compared ignoring case, so the entry replaces any earlier one
    whose key differs only in case.
  */
  function AddEntry(entries: map<string, DictValue>, key: string, value: DictValue): (r: Result<map<string, DictValue>>)
    ensures r.Err? <==> |Trim(key)| > 0 && Trim(key)[0] == '$'
    ensures r.Ok? ==> entries.Keys <= r.value.Keys && value in r.value.Values
  {
    var k := Trim(key);
    if |k| > 0 && k[0] == '$' then Err(NotImplemented("Dictionary keys must be constants"))
    else
      var stored := entries[LowerString(k) := value];
      assert stored[LowerString(k)] == value;
      Ok(stored)
  }

  /**
    A `$` key is refused; any other key is stored trimmed and lower-cased,
    replacing the entry under the same folded key and leaving every other
    entry as it was.
  */
  lemma {:induction false} AddEntryMeaning(entries: map<string, DictValue>, key: string, value: DictValue)
    ensures var r, k := AddEntry(entries, key, value), LowerString(Trim(key));
      && (r.Err? <==> |Trim(key)| > 0 && Trim(key)[0] == '$')
      && (r.Err? ==> r.error == NotImplemented("Dictionary keys must be constants"))
      && (r.Ok? ==> k in r.value && r.value[k] == value)
      && (r.Ok? ==> forall k' | k' in entries && k' != k :: k' in r.value && r.value[k'] == entries[k'])
      && (r.Ok? ==> r.value.Keys == entries.Keys + {k})
  {
  }

  /**
    Storing a scanned entry, given the entries so far, the key text, the
    value text and whether the value was quoted.
  */
  type EntryStore = (map<string, DictValue>, string, string, bool) -> Result<map<string, DictValue>>

  /** `ProcessDictEntry` on text: the value is converted first, then stored under its key. */
  function Store(interp: Interpolator): EntryStore {
    (entries: map<string, DictValue>, key: string, raw: string, quoted: bool) =>
      match EntryValue(interp, raw, quoted)
      case Err(e) => Err(e)
      case Ok(v) => AddEntry(entries, key, v)
  }

  /** A store that never drops an entry it was given. */
  ghost predicate StoreKeepsKeys(store: EntryStore) {
    forall entries, key, raw, quoted | store(entries, key, raw, quoted).Ok? ::
      entries.Keys <= store(entries, key, raw, quoted).value.Keys
  }

  lemma {:induction false} StoreKeepsEntries(interp: Interpolator)
    ensures StoreKeepsKeys(Store(interp))
  {
    forall entries, key, raw, quoted | Store(interp)(entries, key, raw, quoted).Ok?
      ensures entries.Keys <= Store(interp)(entries, key, raw, quoted).value.Keys
    {
      AddEntryMeaning(entries, key, EntryValue(interp, raw, quoted).value);
    }
  }

  /** Flushing the pending entry: its value, then its key; both builders are cleared and the scanner is back in transition. */
  function Flush(st: ScanState, store: EntryStore): Result<ScanState> {
    var entries :- store(st.entries, st.key, st.val, st.quoted);
    Ok(Reset(st.(entries := entries, key := "", val := "")))
  }

  /** What one character does to the scan. */
  datatype StepResult =
    | Continue(st: ScanState, next: int)   // go on at index `next`
    | Stop(st: ScanState)                  // leave the loop
    | Descend(st: ScanState)               // a nested dictionary starts after this character
    | Fail(error: Exception)

  predicate IsEscape(c: char) { c == 'r' || c == '\'' || c == '"' || c == 'n' }

  function Unescape(c: char): char
    requires IsEscape(c)
  {
    if c == 'r' then '\r' else if c == 'n' then '\n' else c
  }

  predicate StepKeepsLastIndex(r: StepResult, st: ScanState, i: int) {
    !r.Fail? ==> r.st.lastIndex == st.lastIndex || r.st.lastIndex == i
  }

  /** Entries are only ever added or replaced, never removed. */
  predicate StepKeepsKeys(r: StepResult, st: ScanState) {
    !r.Fail? ==> st.entries.Keys <= r.st.entries.Keys
  }

  /**
    What the loop body sees at index `i`: the character there, the one after
    it (none at the last index), and the index itself.
  */
  datatype Window = Window(ch: char, after: Option<char>, i: int)

  function WindowAt(contents: seq<char>, i: int): (w: Window)
    requires 0 <= i < |contents|
    ensures w.ch == contents[i] && w.i == i
    ensures w.after.None? <==> i == |contents| - 1
    ensures w.after.Some? ==> w.after.value == contents[i + 1]
  {
    Window(contents[i], if i + 1 < |contents| then Some(contents[i + 1]) else None, i)
  }

  /** The end-of-input check after a character: at the last index the pending entry is flushed unless its key is blank. */
  function EndCheck(w: Window, st: ScanState, store: EntryStore): (r: StepResult)
    ensures r.Continue? ==> r.next == w.i + 1
    ensures StepKeepsLastIndex(r, st, w.i)
    ensures !r.Descend?
  {
    if w.after.None? then
      if IsNullOrWhiteSpace(Some(st.key)) then Stop(st)
      else
        match Flush(st, store)
        case Err(e) => Fail(e)
        case Ok(flushed) => Continue(flushed.(lastIndex := w.i), w.i + 1)
    else Continue(st, w.i + 1)
  }

  /** A character of a value (after the value's opening has been dealt with). */
  function ValueChar(w: Window, st: ScanState, store: EntryStore): (r: StepResult)
    ensures r.Continue? ==> w.i < r.next <= w.i + 2
    ensures r.Continue? && r.next == w.i + 2 ==> w.after.Some?
    ensures StepKeepsLastIndex(r, st, w.i)
    ensures !r.Descend?
  {
    var ch := w.ch;
    if ch == '\\' && w.after.None? then Fail(IndexOutOfRange)
    else if ch == '\\' && IsEscape(w.after.value) then Continue(st.(val := st.val + [Unescape(w.after.value)]), w.i + 2)
    else if (ch == '\'' && st.quoted) || (!st.quoted && ch == ',') || (st.depth == 0 && ch == '}') then
      match Flush(st, store)
      case Err(e) => Fail(e)
      case Ok(flushed) =>
        if st.depth == 0 && ch == '}' then Stop(flushed.(lastIndex := w.i))
        else EndCheck(w, flushed, store)
    else
      var depth := if ch == '{' then st.depth + 1 else if st.depth != 0 && ch == '}' then st.depth - 1 else st.depth;
      EndCheck(w, st.(depth := depth, val := st.val + [ch]), store)
  }

  /** The body of the scanning loop for one character. */
  function Step(w: Window, st: ScanState, store: EntryStore): (r: StepResult)
    ensures r.Continue? ==> w.i < r.next <= w.i + 2
    ensures r.Continue? && r.next == w.i + 2 ==> w.after.Some?
    ensures StepKeepsLastIndex(r, st, w.i)
  {
    var ch := w.ch;
    if st.inTransition && (ch == ',' || ch == ' ') then Continue(st, w.i + 1)
    else if st.inTransition && ch == '}' then Stop(st.(lastIndex := w.i))
    else
      var s := if st.inTransition then st.(inTransition := false, inKey := true) else st;
      if ch == '=' && s.inKey then Continue(s.(inKey := false, valueStarted := true), w.i + 1)
      else if s.inKey then EndCheck(w, s.(key := s.key + [ch]), store)
      else if s.valueStarted && ch == ' ' then Continue(s, w.i + 1)
      else if s.valueStarted && ch == '\'' then Continue(s.(valueStarted := false, quoted := true), w.i + 1)
      else if s.valueStarted && ch == '{' then Descend(s.(valueStarted := false))
      else ValueChar(w, s.(valueStarted := false), store)
  }

  /** How a scan of one dictionary ends. */
  datatype ScanOutcome =
    | Done(entries: map<string, DictValue>, lastIndex: int)
    | Failed(error: Exception)
    | Diverged                             // the scan does not end

  /**
    The loop body as the scanning loop sees it: what the character at an
    index does to a state. The loop is defined once over any step that
    moves forward and records no index but its own, and `CharStep` is the
    step of this scanner.
  */
  type Stepper = (seq<char>, int, ScanState) -> StepResult

  ghost predicate Advances(step: Stepper) {
    forall contents, i, st | 0 <= i < |contents| ::
      (step(contents, i, st).Continue? ==> i < step(contents, i, st).next)
      && StepKeepsLastIndex(step(contents, i, st), st, i)
  }

  /** `Step` as a total function; the loop only ever applies it to an index of the input. */
  function CharStep(store: EntryStore): Stepper {
    (contents: seq<char>, i: int, st: ScanState) =>
      if 0 <= i < |contents| then Step(WindowAt(contents, i), st, store) else Fail(IndexOutOfRange)
  }

  lemma {:induction false} CharStepAdvances(store: EntryStore)
    ensures Advances(CharStep(store))
  {
    forall contents, i, st | 0 <= i < |contents|
      ensures var r := CharStep(store)(contents, i, st);
        (r.Continue? ==> i < r.next) && StepKeepsLastIndex(r, st, i)
    {
      assert CharStep(store)(contents, i, st) == Step(WindowAt(contents, i), st, store);
    }
  }

  lemma {:induction false} CharStepAt(store: EntryStore, contents: seq<char>, i: int, st: ScanState)
    requires 0 <= i < |contents|
    ensures CharStep(store)(contents, i, st) == Step(WindowAt(contents, i), st, store)
  {
  }

  // ---------------------------------------------------------------------
  // The scan as the source writes it
  // ---------------------------------------------------------------------

  /**
    `RecursiveBuildDictionary` as written: `lastIndex` starts at 0, and the
    caller resumes after whatever index a nested scan reports. Each nested
    dictionary spends one unit of `fuel`; running out of it means the scan
    has not ended.
  */
  function ScanAsWritten(contents: seq<char>, i: int, st: ScanState, step: Stepper, fuel: nat): ScanOutcome
    requires 0 <= i && Advances(step)
    decreases fuel, |contents| - i
  {
    if i >= |contents| then Done(st.entries, st.lastIndex)
    else
      match step(contents, i, st)
      case Continue(next, n) => ScanAsWritten(contents, n, next, step, fuel)
      case Stop(last) => Done(last.entries, last.lastIndex)
      case Fail(e) => Failed(e)
      case Descend(outer) =>
        if fuel == 0 then Diverged
        else
          var inner := ScanAsWritten(contents, i + 1, Initial(0), step, fuel - 1);
          if !inner.Done? then inner
          else
            match AddEntry(outer.entries, outer.key, Nested(inner.entries))
            case Err(e) => Failed(e)
            case Ok(entries) =>
              if inner.lastIndex + 1 < 0 then Done(entries, inner.lastIndex)
              else ScanAsWritten(contents, inner.lastIndex + 1, Reset(outer.(entries := entries, key := "")), step, fuel - 1)
  }

  /**
    The fuel only cuts the as-written scan off: a scan that ends with some
    fuel ends the same way with more.
  */
  lemma {:induction false} AsWrittenFuelMonotone(contents: seq<char>, i: int, st: ScanState, step: Stepper, fuel: nat)
    requires 0 <= i && Advances(step)
    requires !ScanAsWritten(contents, i, st, step, fuel).Diverged?
    ensures ScanAsWritten(contents, i, st, step, fuel + 1) == ScanAsWritten(contents, i, st, step, fuel)
    decreases fuel, |contents| - i
  {
    if i < |contents| {
      match step(contents, i, st)
      case Continue(next, n) =>
        AsWrittenFuelMonotone(contents, n, next, step, fuel);
      case Stop(_) =>
      case Fail(_) =>
      case Descend(outer) =>
        var inner := ScanAsWritten(contents, i + 1, Initial(0), step, fuel - 1);
        AsWrittenFuelMonotone(contents, i + 1, Initial(0), step, fuel - 1);
        if inner.Done? {
          match AddEntry(outer.entries, outer.key, Nested(inner.entries))
          case Err(_) =>
          case Ok(entries) =>
            if inner.lastIndex + 1 >= 0 {
              AsWrittenFuelMonotone(contents, inner.lastIndex + 1, Reset(outer.(entries := entries, key := "")), step, fuel - 1);
            }
        }
    }
  }

  /** `Reduce()` as written, with the nesting it may reach bounded by `fuel`. */
  function ParseAsWritten(value: string, interp: Interpolator, fuel: nat): ScanOutcome {
    CharStepAdvances(Store(interp));
    ScanAsWritten(value, 2, Initial(0), CharStep(Store(interp)), fuel)
  }

  /** The scanner's state when it comes back to index 1 of `%{a={` with entries `e`. */
  function LoopState(e: map<string, DictValue>): ScanState {
    Reset(ScanState(false, false, false, false, 0, "", "", e, 0))
  }

  /**
    From index 1 of `%{a={` the as-written scan reads the key `{a`, meets
    the nested opener at the end of the input, gets back `lastIndex` 0 from
    the empty nested scan, and resumes at index 1 again: whatever the fuel,
    it never ends.
  */
  lemma {:induction false} RescanFromIndexOne(store: EntryStore, e: map<string, DictValue>, fuel: nat)
    requires Advances(CharStep(store))
    ensures ScanAsWritten("%{a={", 1, LoopState(e), CharStep(store), fuel) == Diverged
    decreases fuel
  {
    var c, step := "%{a={", CharStep(store);
    var s1 := LoopState(e).(inTransition := false, inKey := true, key := "{");
    assert Step(WindowAt(c, 1), LoopState(e), store) == Continue(s1, 2);
    CharStepAt(store, c, 1, LoopState(e));
    var s2 := s1.(key := "{a");
    assert Step(WindowAt(c, 2), s1, store) == Continue(s2, 3);
    CharStepAt(store, c, 2, s1);
    var s3 := s2.(inKey := false, valueStarted := true);
    assert Step(WindowAt(c, 3), s2, store) == Continue(s3, 4);
    CharStepAt(store, c, 3, s2);
    var s4 := s3.(valueStarted := false);
    assert Step(WindowAt(c, 4), s3, store) == Descend(s4);
    CharStepAt(store, c, 4, s3);
    assert ScanAsWritten(c, 3, s2, step, fuel) == ScanAsWritten(c, 4, s3, step, fuel);
    assert ScanAsWritten(c, 2, s1, step, fuel) == ScanAsWritten(c, 3, s2, step, fuel);
    assert ScanAsWritten(c, 1, LoopState(e), step, fuel) == ScanAsWritten(c, 2, s1, step, fuel);
    if fuel > 0 {
      assert ScanAsWritten(c, 5, Initial(0), step, fuel - 1) == Done(map[], 0);
      assert LowerString("{a") == "{a";
      var e' := e["{a" := Nested(map[])];
      PlainKeyStored(s4.entries, s4.key, Nested(map[]));
      assert Reset(s4.(entries := e', key := "")) == LoopState(e');
      RescanFromIndexOne(store, e', fuel - 1);
    }
  }

  /** A key with no blanks at its ends, no `$` in front and no upper-case letter is stored as written. */
  lemma {:induction false} PlainKeyStored(m: map<string, DictValue>, k: string, v: DictValue)
    requires k != [] && !IsWhiteSpace(k[0]) && !IsWhiteSpace(k[|k| - 1]) && k[0] != '$' && LowerString(k) == k
    ensures AddEntry(m, k, v) == Ok(m[k := v])
  {
    assert Trim(k) == k;
  }

  /** `%{a={`: the as-written scan of a nested dictionary left open at the end of the input never ends. */
  lemma {:induction false} AsWrittenNestedAtEndDiverges(interp: Interpolator, fuel: nat)
    ensures ParseAsWritten("%{a={", interp, fuel) == Diverged
  {
    var store := Store(interp);
    CharStepAdvances(store);
    var c, step := "%{a={", CharStep(store);
    var s1 := Initial(0).(inTransition := false, inKey := true, key := "a");
    assert Step(WindowAt(c, 2), Initial(0), store) == Continue(s1, 3);
    CharStepAt(store, c, 2, Initial(0));
    var s2 := s1.(inKey := false, valueStarted := true);
    assert Step(WindowAt(c, 3), s1, store) == Continue(s2, 4);
    CharStepAt(store, c, 3, s1);
    var s3 := s2.(valueStarted := false);
    assert Step(WindowAt(c, 4), s2, store) == Descend(s3);
    CharStepAt(store, c, 4, s2);
    assert ScanAsWritten(c, 3, s1, step, fuel) == ScanAsWritten(c, 4, s2, step, fuel);
    assert ScanAsWritten(c, 2, Initial(0), step, fuel) == ScanAsWritten(c, 3, s1, step, fuel);
    if fuel > 0 {
      assert ScanAsWritten(c, 5, Initial(0), step, fuel - 1) == Done(map[], 0);
      assert LowerString("a") == "a";
      var e := map["a" := Nested(map[])];
      PlainKeyStored(s3.entries, s3.key, Nested(map[]));
      assert Reset(s3.(entries := e, key := "")) == LoopState(e);
      RescanFromIndexOne(store, e, fuel - 1);
    }
  }

  // ---------------------------------------------------------------------
  // The corrected scan
  // ---------------------------------------------------------------------

  /**
    `RecursiveBuildDictionary` with `lastIndex` starting at the last index
    of the input, so that a nested scan that runs off the end makes its
    caller stop there too. Every index it reports is at or after where it
    started, or the last index, so the scan always moves forward and ends.
  */
  function Scan(contents: seq<char>, i: int, st: ScanState, step: Stepper): (r: ScanOutcome)
    requires 0 <= i && Advances(step)
    ensures !r.Diverged?
    ensures r.Done? ==> r.lastIndex == st.lastIndex || i <= r.lastIndex
    decreases |contents| - i, 1
  {
    if i >= |contents| then Done(st.entries, st.lastIndex)
    else
      match step(contents, i, st)
      case Continue(next, n) => Scan(contents, n, next, step)
      case Stop(last) => Done(last.entries, last.lastIndex)
      case Fail(e) => Failed(e)
      case Descend(outer) => Nest(contents, i, outer, step)
  }

  /**
    A nested dictionary opened at index `i`: it is scanned from `i + 1`,
    stored under the pending key, and the scan resumes after the index the
    nested scan reports.
  */
  function Nest(contents: seq<char>, i: int, outer: ScanState, step: Stepper): (r: ScanOutcome)
    requires 0 <= i < |contents| && Advances(step)
    ensures !r.Diverged?
    ensures r.Done? ==> r.lastIndex == outer.lastIndex || i <= r.lastIndex
    decreases |contents| - i, 0
  {
    var inner := Scan(contents, i + 1, Initial(|contents| - 1), step);
    if inner.Failed? then inner
    else
      match AddEntry(outer.entries, outer.key, Nested(inner.entries))
      case Err(e) => Failed(e)
      case Ok(entries) => Scan(contents, inner.lastIndex + 1, Reset(outer.(entries := entries, key := "")), step)
  }

  /** `Reduce()`: the corrected scan of the literal, starting after the two-character opener. */
  function Parse(value: string, interp: Interpolator): (r: Result<map<string, DictValue>>)
    ensures |value| <= 2 ==> r == Ok(map[])
  {
    CharStepAdvances(Store(interp));
    var outcome := Scan(value, 2, Initial(|value| - 1), CharStep(Store(interp)));
    if outcome.Done? then Ok(outcome.entries) else Err(outcome.error)
  }

  /** The corrected scan as a loop over the character array, recursing into nested dictionaries. */
  method BuildDictionary(contents: array<char>, from: nat, step: Stepper) returns (r: ScanOutcome)
    requires Advances(step)
    ensures r == Scan(contents[..], from, Initial(contents.Length - 1), step)
    decreases contents.Length - from
  {
    var st := Initial(contents.Length - 1);
    var i: int := from;
    while i < contents.Length
      invariant from <= i
      invariant Scan(contents[..], i, st, step) == Scan(contents[..], from, Initial(contents.Length - 1), step)
      decreases contents.Length - i
    {
      match step(contents[..], i, st)
      case Continue(next, n) =>
        st, i := next, n;
      case Stop(last) =>
        return Done(last.entries, last.lastIndex);
      case Fail(e) =>
        return Failed(e);
      case Descend(outer) =>
        var nested := BuildDictionary(contents, i + 1, step);
        if !nested.Done? {
          return nested;
        }
        var added := AddEntry(outer.entries, outer.key, Nested(nested.entries));
        if added.Err? {
          return Failed(added.error);
        }
        st, i := Reset(outer.(entries := added.value, key := "")), nested.lastIndex + 1;
    }
    r := Done(st.entries, st.lastIndex);
  }

  /** `Reduce()` on the literal's text. */
  method Reduce(value: string, interp: Interpolator) returns (r: Result<map<string, DictValue>>)
    ensures r == Parse(value, interp)
  {
    var contents := new char[|value|](i requires 0 <= i < |value| => value[i]);
    assert contents[..] == value;
    CharStepAdvances(Store(interp));
    var outcome := BuildDictionary(contents, 2, CharStep(Store(interp)));
    if outcome.Done? {
      r := Ok(outcome.entries);
    } else {
      r := Err(outcome.error);
    }
  }

  /** The corrected scan of `%{a={` ends, with `a` mapped to an empty nested dictionary. */
  lemma {:induction false} CorrectedNestedAtEndEnds(interp: Interpolator)
    ensures Parse("%{a={", interp) == Ok(map["a" := Nested(map[])])
  {
    var store := Store(interp);
    CharStepAdvances(store);
    var c, step := "%{a={", CharStep(store);
    var s1 := Initial(4).(inTransition := false, inKey := true, key := "a");
    assert Step(WindowAt(c, 2), Initial(4), store) == Continue(s1, 3);
    CharStepAt(store, c, 2, Initial(4));
    var s2 := s1.(inKey := false, valueStarted := true);
    assert Step(WindowAt(c, 3), s1, store) == Continue(s2, 4);
    CharStepAt(store, c, 3, s1);
    var s3 := s2.(valueStarted := false);
    assert Step(WindowAt(c, 4), s2, store) == Descend(s3);
    CharStepAt(store, c, 4, s2);
    assert Scan(c, 5, Initial(4), step) == Done(map[], 4);
    assert Trim("a") == "a";
    assert LowerString("a") == "a";
    assert AddEntry(s3.entries, s3.key, Nested(map[])) == Ok(map["a" := Nested(map[])]);
    assert Scan(c, 3, s1, step) == Scan(c, 4, s2, step);
    assert Scan(c, 2, Initial(4), step) == Scan(c, 3, s1, step);
  }

  // ---------------------------------------------------------------------
  // Properties of the corrected scan
  // ---------------------------------------------------------------------

  /** Two inputs on which a step does the same thing at every index from `k` on. */
  ghost predicate AgreeFrom(step: Stepper, a: seq<char>, b: seq<char>, k: int) {
    forall j, st | k <= j < |a| :: step(a, j, st) == step(b, j, st)
  }

  /** The character step looks at its own character and the next one only. */
  lemma {:induction false} CharStepIsLocal(store: EntryStore, a: seq<char>, b: seq<char>, k: int)
    requires |a| == |b| && 0 <= k <= |a| && a[k..] == b[k..]
    ensures AgreeFrom(CharStep(store), a, b, k)
  {
    forall j, st | k <= j < |a|
      ensures CharStep(store)(a, j, st) == CharStep(store)(b, j, st)
    {
      assert a[j] == a[k..][j - k] == b[j];
      if j + 1 < |a| {
        assert a[j + 1] == a[k..][j + 1 - k] == b[j + 1];
      }
      assert WindowAt(a, j) == WindowAt(b, j);
    }
  }

  /** A scan from index `i` depends only on what the step does from some `k <= i` on. */
  lemma {:induction false} ScanIsLocal(a: seq<char>, b: seq<char>, k: int, i: int, st: ScanState, step: Stepper)
    requires Advances(step) && |a| == |b| && 0 <= k <= i && AgreeFrom(step, a, b, k)
    ensures Scan(a, i, st, step) == Scan(b, i, st, step)
    decreases |a| - i, 1
  {
    if i < |a| {
      var r := step(a, i, st);
      assert step(b, i, st) == r;
      if r.Continue? {
        ScanIsLocal(a, b, k, r.next, r.st, step);
      } else if r.Descend? {
        NestIsLocal(a, b, k, i, r.st, step);
      }
    }
  }

  lemma {:induction false} NestIsLocal(a: seq<char>, b: seq<char>, k: int, i: int, outer: ScanState, step: Stepper)
    requires Advances(step) && |a| == |b| && 0 <= k <= i < |a| && AgreeFrom(step, a, b, k)
    ensures Nest(a, i, outer, step) == Nest(b, i, outer, step)
    decreases |a| - i, 0
  {
    ScanIsLocal(a, b, k, i + 1, Initial(|a| - 1), step);
    var inner := Scan(a, i + 1, Initial(|a| - 1), step);
    if inner.Done? {
      var added := AddEntry(outer.entries, outer.key, Nested(inner.entries));
      if added.Ok? {
        ScanIsLocal(a, b, k, inner.lastIndex + 1, Reset(outer.(entries := added.value, key := "")), step);
      }
    }
  }

  /** `Reduce()` never looks at the two characters of the opener. */
  lemma {:induction false} ParseIgnoresOpener(p: string, q: string, body: string, interp: Interpolator)
    requires |p| == 2 && |q| == 2
    ensures Parse(p + body, interp) == Parse(q + body, interp)
  {
    var store := Store(interp);
    CharStepAdvances(store);
    assert (p + body)[2..] == body == (q + body)[2..];
    CharStepIsLocal(store, p + body, q + body, 2);
    ScanIsLocal(p + body, q + body, 2, 2, Initial(|p + body| - 1), CharStep(store));
  }

  /** A step that never drops an entry. */
  ghost predicate KeepsKeys(step: Stepper) {
    forall contents, i, st | 0 <= i < |contents| :: StepKeepsKeys(step(contents, i, st), st)
  }

  /** With a store that keeps entries, the character step keeps them too. */
  lemma {:induction false} CharStepKeepsKeys(store: EntryStore)
    requires StoreKeepsKeys(store)
    ensures KeepsKeys(CharStep(store))
  {
    forall contents, i, st | 0 <= i < |contents|
      ensures StepKeepsKeys(CharStep(store)(contents, i, st), st)
    {
      assert CharStep(store)(contents, i, st) == Step(WindowAt(contents, i), st, store);
    }
  }

  /** A finished scan still holds every key it started with. */
  lemma {:induction false} ScanKeepsKeys(contents: seq<char>, i: int, st: ScanState, step: Stepper)
    requires 0 <= i && Advances(step) && KeepsKeys(step)
    requires Scan(contents, i, st, step).Done?
    ensures st.entries.Keys <= Scan(contents, i, st, step).entries.Keys
    decreases |contents| - i, 1
  {
    if i < |contents| {
      var r := step(contents, i, st);
      if r.Continue? {
        ScanKeepsKeys(contents, r.next, r.st, step);
      } else if r.Descend? {
        NestKeepsKeys(contents, i, r.st, step);
      }
    }
  }

  lemma {:induction false} NestKeepsKeys(contents: seq<char>, i: int, outer: ScanState, step: Stepper)
    requires 0 <= i < |contents| && Advances(step) && KeepsKeys(step)
    requires Nest(contents, i, outer, step).Done?
    ensures outer.entries.Keys <= Nest(contents, i, outer, step).entries.Keys
    decreases |contents| - i, 0
  {
    var inner := Scan(contents, i + 1, Initial(|contents| - 1), step);
    var added := AddEntry(outer.entries, outer.key, Nested(inner.entries));
    AddEntryMeaning(outer.entries, outer.key, Nested(inner.entries));
    ScanKeepsKeys(contents, inner.lastIndex + 1, Reset(outer.(entries := added.value, key := "")), step);
  }

  /** Inside a value: the scanner is neither between entries, nor in a key, nor at a value's first character. */
  predicate InValue(st: ScanState) {
    !st.inTransition && !st.inKey && !st.valueStarted
  }

  /**
    Inside a value, a backslash before `r`, `'`, `"` or `n` adds the decoded
    character and consumes both; a backslash as the last character reads
    past the end of the input.
  */
  lemma {:induction false} EscapesDecoded(contents: seq<char>, i: int, st: ScanState, store: EntryStore)
    requires 0 <= i < |contents| && InValue(st) && contents[i] == '\\'
    ensures i == |contents| - 1 ==> Step(WindowAt(contents, i), st, store) == Fail(IndexOutOfRange)
    ensures i < |contents| - 1 && IsEscape(contents[i + 1]) ==>
      Step(WindowAt(contents, i), st, store) == Continue(st.(val := st.val + [Unescape(contents[i + 1])]), i + 2)
  {
    assert st.(valueStarted := false) == st;
  }

  /**
    Braces inside a value (before its last character) are kept in its text
    and counted, so that a `}` closes them before it can end the dictionary.
  */
  lemma {:induction false} InnerBracesKept(contents: seq<char>, i: int, st: ScanState, store: EntryStore)
    requires 0 <= i < |contents| - 1 && InValue(st)
    ensures contents[i] == '{' ==>
      Step(WindowAt(contents, i), st, store) == Continue(st.(depth := st.depth + 1, val := st.val + ['{']), i + 1)
    ensures contents[i] == '}' && st.depth != 0 ==>
      Step(WindowAt(contents, i), st, store) == Continue(st.(depth := st.depth - 1, val := st.val + ['}']), i + 1)
  {
    assert st.(valueStarted := false) == st;
  }

  /**
    Inside a value, a `}` outside any inner braces flushes the entry and ends
    the dictionary at that index, whether the value is quoted or not.
  */
  lemma {:induction false} ClosingBraceEndsDictionary(contents: seq<char>, i: int, st: ScanState, store: EntryStore)
    requires 0 <= i < |contents| && InValue(st) && st.depth == 0 && contents[i] == '}'
    ensures Flush(st, store).Err? ==> Step(WindowAt(contents, i), st, store) == Fail(Flush(st, store).error)
    ensures Flush(st, store).Ok? ==> Step(WindowAt(contents, i), st, store) == Stop(Flush(st, store).value.(lastIndex := i))
  {
    assert st.(valueStarted := false) == st;
  }

  /**
    A plain character that is the last of the input ends the value: the
    entry is flushed, unless its key is blank, in which case the scan stops
    without it.
  */
  lemma {:induction false} LastCharacterFlushes(contents: seq<char>, st: ScanState, store: EntryStore)
    requires |contents| > 0 && InValue(st)
    requires var ch := contents[|contents| - 1];
      ch != '\\' && ch != '\'' && ch != ',' && ch != '{' && ch != '}'
    ensures var i := |contents| - 1;
      var pending := st.(val := st.val + [contents[i]]);
      && (IsNullOrWhiteSpace(Some(st.key)) ==> Step(WindowAt(contents, i), st, store) == Stop(pending))
      && (!IsNullOrWhiteSpace(Some(st.key)) && Flush(pending, store).Ok? ==>
            Step(WindowAt(contents, i), st, store) == Continue(Flush(pending, store).value.(lastIndex := i), i + 1))
      && (!IsNullOrWhiteSpace(Some(st.key)) && Flush(pending, store).Err? ==>
            Step(WindowAt(contents, i), st, store) == Fail(Flush(pending, store).error))
  {
    assert st.(valueStarted := false) == st;
  }

  /** Keys that differ only in case or surrounding blanks name one entry: the later value replaces the earlier one. */
  lemma {:induction false} LaterKeyWins(m: map<string, DictValue>, k1: string, k2: string, v1: DictValue, v2: DictValue)
    requires EqualsIgnoreCase(Trim(k1), Trim(k2)) && AddEntry(m, k1, v1).Ok?
    ensures AddEntry(AddEntry(m, k1, v1).value, k2, v2) == AddEntry(m, k2, v2)
  {
    var key := LowerString(Trim(k1));
    assert LowerString(Trim(k2)) == key;
    if |Trim(k2)| > 0 {
      assert |Trim(k1)| == |key| == |Trim(k2)|;
      assert Lower(Trim(k1)[0]) == key[0] == Lower(Trim(k2)[0]);
    }
    assert AddEntry(m, k1, v1).value == m[key := v1];
    assert m[key := v1][key := v2] == m[key := v2];
  }

  /** The state once `%{a='x` has been read: the key `a` and the quoted text `x`. */
  function QuotedValueRead(): ScanState {
    Initial(7).(inTransition := false, quoted := true, key := "a", val := "x")
  }

  /** `%{a='x`: the key is read, `=` starts the value and the quote opens it. */
  lemma {:induction false} QuotedEntryOpens(interp: Interpolator)
    requires Advances(CharStep(Store(interp)))
    ensures Scan("%{a='x'}", 2, Initial(7), CharStep(Store(interp))) == Scan("%{a='x'}", 6, QuotedValueRead(), CharStep(Store(interp)))
  {
    var store := Store(interp);
    var c, step := "%{a='x'}", CharStep(store);
    var s1 := Initial(7).(inTransition := false, inKey := true, key := "a");
    var s2 := s1.(inKey := false, valueStarted := true);
    var s3 := s2.(valueStarted := false, quoted := true);
    assert Step(WindowAt(c, 2), Initial(7), store) == Continue(s1, 3);
    CharStepAt(store, c, 2, Initial(7));
    assert Step(WindowAt(c, 3), s1, store) == Continue(s2, 4);
    CharStepAt(store, c, 3, s1);
    assert Step(WindowAt(c, 4), s2, store) == Continue(s3, 5);
    CharStepAt(store, c, 4, s2);
    assert Step(WindowAt(c, 5), s3, store) == Continue(QuotedValueRead(), 6);
    CharStepAt(store, c, 5, s3);
    assert Scan(c, 5, s3, step) == Scan(c, 6, QuotedValueRead(), step);
    assert Scan(c, 4, s2, step) == Scan(c, 5, s3, step);
    assert Scan(c, 3, s1, step) == Scan(c, 4, s2, step);
  }

  /** `'}`: the closing quote stores the entry and the brace ends the dictionary. */
  lemma {:induction false} QuotedEntryCloses(interp: Interpolator)
    requires Advances(CharStep(Store(interp)))
    ensures Scan("%{a='x'}", 6, QuotedValueRead(), CharStep(Store(interp))) == Done(map["a" := TextConst("x")], 7)
  {
    var store := Store(interp);
    var c, step := "%{a='x'}", CharStep(store);
    var s4 := QuotedValueRead();
    assert Trim("x") == "x" && Trim("a") == "a" && LowerString("a") == "a";
    var s5 := Reset(s4.(entries := map["a" := TextConst("x")], key := "", val := ""));
    assert EntryValue(interp, "x", true) == Ok(TextConst("x"));
    assert store(map[], "a", "x", true) == Ok(map["a" := TextConst("x")]);
    assert Flush(s4, store) == Ok(s5);
    assert Step(WindowAt(c, 6), s4, store) == Continue(s5, 7);
    CharStepAt(store, c, 6, s4);
    assert Step(WindowAt(c, 7), s5, store) == Stop(s5.(lastIndex := 7));
    CharStepAt(store, c, 7, s5);
    assert Scan(c, 6, s4, step) == Scan(c, 7, s5, step);
  }

  /** `%{a='x'}`: a quoted value is text, and the closing brace between entries ends the dictionary. */
  lemma {:induction false} QuotedEntryParses(interp: Interpolator)
    ensures Parse("%{a='x'}", interp) == Ok(map["a" := TextConst("x")])
  {
    CharStepAdvances(Store(interp));
    QuotedEntryOpens(interp);
    QuotedEntryCloses(interp);
  }

  /** The state after the nested `{}` of `%{a={},b='x'}` has been stored under `a`. */
  function AfterNested(): ScanState {
    Reset(Initial(12).(inTransition := false, entries := map["a" := Nested(map[])]))
  }

  /** The state once `,b=` follows the nested dictionary: the key `b` is read and its value started. */
  function SecondKeyRead(): ScanState {
    AfterNested().(inTransition := false, valueStarted := true, key := "b")
  }

  /** `,b=` after the nested dictionary: the separator is skipped and the key `b` read. */
  lemma {:induction false} AfterNestedKey(interp: Interpolator)
    requires Advances(CharStep(Store(interp)))
    ensures Scan("%{a={},b='x'}", 6, AfterNested(), CharStep(Store(interp)))
         == Scan("%{a={},b='x'}", 9, SecondKeyRead(), CharStep(Store(interp)))
  {
    var store := Store(interp);
    var c, step := "%{a={},b='x'}", CharStep(store);
    var s4 := AfterNested();
    var s5 := s4.(inTransition := false, inKey := true, key := "b");
    assert Step(WindowAt(c, 6), s4, store) == Continue(s4, 7);
    CharStepAt(store, c, 6, s4);
    assert Step(WindowAt(c, 7), s4, store) == Continue(s5, 8);
    CharStepAt(store, c, 7, s4);
    assert Step(WindowAt(c, 8), s5, store) == Continue(SecondKeyRead(), 9);
    CharStepAt(store, c, 8, s5);
    assert Scan(c, 8, s5, step) == Scan(c, 9, SecondKeyRead(), step);
    assert Scan(c, 7, s4, step) == Scan(c, 8, s5, step);
  }

  /** `'x'}`: the quoted value is stored under `b` and the brace ends the dictionary. */
  lemma {:induction false} AfterNestedValue(interp: Interpolator)
    requires Advances(CharStep(Store(interp)))
    ensures Scan("%{a={},b='x'}", 9, SecondKeyRead(), CharStep(Store(interp)))
         == Done(map["a" := Nested(map[]), "b" := TextConst("x")], 12)
  {
    var store := Store(interp);
    var c, step := "%{a={},b='x'}", CharStep(store);
    var s6 := SecondKeyRead();
    var s7 := s6.(valueStarted := false, quoted := true);
    var s8 := s7.(val := "x");
    var e2 := map["a" := Nested(map[]), "b" := TextConst("x")];
    var s9 := Reset(s8.(entries := e2, key := "", val := ""));
    assert Trim("x") == "x" && Trim("b") == "b" && LowerString("b") == "b";
    assert EntryValue(interp, "x", true) == Ok(TextConst("x"));
    assert store(s8.entries, "b", "x", true) == Ok(e2);
    assert Flush(s8, store) == Ok(s9);
    assert Step(WindowAt(c, 9), s6, store) == Continue(s7, 10);
    CharStepAt(store, c, 9, s6);
    assert Step(WindowAt(c, 10), s7, store) == Continue(s8, 11);
    CharStepAt(store, c, 10, s7);
    assert Step(WindowAt(c, 11), s8, store) == Continue(s9, 12);
    CharStepAt(store, c, 11, s8);
    assert Step(WindowAt(c, 12), s9, store) == Stop(s9.(lastIndex := 12));
    CharStepAt(store, c, 12, s9);
    assert Scan(c, 11, s8, step) == Scan(c, 12, s9, step);
    assert Scan(c, 10, s7, step) == Scan(c, 11, s8, step);
    assert Scan(c, 9, s6, step) == Scan(c, 10, s7, step);
  }

  /** The rest of `%{a={},b='x'}` after the nested dictionary: the separator is skipped and `b` is read. */
  lemma {:induction false} AfterNestedEntry(interp: Interpolator)
    requires Advances(CharStep(Store(interp)))
    ensures Scan("%{a={},b='x'}", 6, AfterNested(), CharStep(Store(interp)))
         == Done(map["a" := Nested(map[]), "b" := TextConst("x")], 12)
  {
    AfterNestedKey(interp);
    AfterNestedValue(interp);
  }

  /**
    `%{a={},b='x'}`: a `{` right after `=` opens a nested dictionary, and the
    scan resumes after the `}` that closes it.
  */
  lemma {:induction false} NestedDictionaryResumesAfterClose(interp: Interpolator)
    ensures Parse("%{a={},b='x'}", interp) == Ok(map["a" := Nested(map[]), "b" := TextConst("x")])
  {
    var store := Store(interp);
    CharStepAdvances(store);
    var c, step := "%{a={},b='x'}", CharStep(store);
    var s1 := Initial(12).(inTransition := false, inKey := true, key := "a");
    var s2 := s1.(inKey := false, valueStarted := true);
    var s3 := s2.(valueStarted := false);
    assert Trim("a") == "a" && LowerString("a") == "a";
    assert Step(WindowAt(c, 2), Initial(12), store) == Continue(s1, 3);
    CharStepAt(store, c, 2, Initial(12));
    assert Step(WindowAt(c, 3), s1, store) == Continue(s2, 4);
    CharStepAt(store, c, 3, s1);
    assert Step(WindowAt(c, 4), s2, store) == Descend(s3);
    CharStepAt(store, c, 4, s2);
    assert Step(WindowAt(c, 5), Initial(12), store) == Stop(Initial(12).(lastIndex := 5));
    CharStepAt(store, c, 5, Initial(12));
    assert Scan(c, 5, Initial(12), step) == Done(map[], 5);
    assert AddEntry(s3.entries, s3.key, Nested(map[])) == Ok(map["a" := Nested(map[])]);
    assert Reset(s3.(entries := map["a" := Nested(map[])], key := "")) == AfterNested();
    AfterNestedEntry(interp);
    assert Scan(c, 4, s2, step) == Nest(c, 4, s3, step);
    assert Scan(c, 3, s1, step) == Scan(c, 4, s2, step);
    assert Scan(c, 2, Initial(12), step) == Scan(c, 3, s1, step);
  }
}
