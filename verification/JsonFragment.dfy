/**
 The first JSON value in free text: a scanner that counts brackets outside strings, and the texts of RFC 8259 that it
 cuts out whole.
 */
module JsonFragment {
  import opened Wrappers

  // ---------------------------------------------------------------- JSON texts

  /** A character of a string as written: itself, or a backslash and the character it escapes. */
  datatype Item = Plain(c: char) | Escape(c: char)

  datatype Value =
    | Scalar(text: string)
    | Text(items: seq<Item>)
    | Arr(ws: string, elements: Elements)
    | Obj(ws: string, members: Members)

  datatype Elements = EndOfElements | Element(before: string, value: Value, after: string, rest: Elements)

  datatype Members =
    | EndOfMembers
    | Member(before: string, name: seq<Item>, afterName: string, beforeValue: string, value: Value, after: string, rest: Members)

  /** Insignificant whitespace, section 2 of RFC 8259. */
  predicate IsWhitespace(t: string) {
    forall i :: 0 <= i < |t| ==> t[i] in {' ', '\t', '\n', '\r'}
  }

  /** The literals of section 3 and, among others, the numbers of section 6. */
  predicate IsScalar(t: string) {
    t in {"true", "false", "null"}
    || (t != "" && forall i :: 0 <= i < |t| ==> '0' <= t[i] <= '9' || t[i] in {'+', '-', '.', 'e', 'E'})
  }

  /** The characters of section 7: quotation marks and backslashes only behind a backslash. */
  predicate AreItems(items: seq<Item>) {
    forall i :: 0 <= i < |items| && items[i].Plain? ==> items[i].c != '"' && items[i].c != '\\'
  }

  predicate IsValue(v: Value) {
    match v
    case Scalar(text) => IsScalar(text)
    case Text(items) => AreItems(items)
    case Arr(ws, elements) => IsWhitespace(ws) && AreElements(elements)
    case Obj(ws, members) => IsWhitespace(ws) && AreMembers(members)
  }

  predicate AreElements(e: Elements) {
    e.Element? ==> IsWhitespace(e.before) && IsValue(e.value) && IsWhitespace(e.after) && AreElements(e.rest)
  }

  predicate AreMembers(m: Members) {
    m.Member? ==>
      && IsWhitespace(m.before) && AreItems(m.name) && IsWhitespace(m.afterName) && IsWhitespace(m.beforeValue)
      && IsValue(m.value) && IsWhitespace(m.after) && AreMembers(m.rest)
  }

  function RenderItems(items: seq<Item>): string {
    if items == [] then ""
    else (if items[0].Plain? then [items[0].c] else ['\\', items[0].c]) + RenderItems(items[1..])
  }

  function RenderText(items: seq<Item>): string {
    "\"" + RenderItems(items) + "\""
  }

  function Render(v: Value): string {
    match v
    case Scalar(text) => text
    case Text(items) => RenderText(items)
    case Arr(ws, elements) => "[" + ws + RenderElements(elements) + "]"
    case Obj(ws, members) => "{" + ws + RenderMembers(members) + "}"
  }

  function RenderElements(e: Elements): string {
    match e
    case EndOfElements => ""
    case Element(before, value, after, rest) =>
      before + Render(value) + after + (if rest.Element? then "," else "") + RenderElements(rest)
  }

  function RenderMembers(m: Members): string {
    match m
    case EndOfMembers => ""
    case Member(before, name, afterName, beforeValue, value, after, rest) =>
      before + RenderText(name) + afterName + ":" + beforeValue + Render(value) + after
      + (if rest.Member? then "," else "") + RenderMembers(rest)
  }

  // ---------------------------------------------------------------- the scan from one bracket

  /** How the scan from an opening bracket ends, with the text or the open brackets that are left. */
  datatype Verdict = Closed(rest: string) | Mismatch(stack: seq<char>) | RanOut(stack: seq<char>)

  predicate Opens(c: char) { c == '{' || c == '[' }

  predicate Closes(c: char) { c == '}' || c == ']' }

  predicate Matches(opening: char, c: char) {
    (opening == '{' ==> c == '}') && (opening == '[' ==> c == ']')
  }

  function Scan(s: string, stack: seq<char>, quoted: bool, escaped: bool): Verdict {
    if s == "" then RanOut(stack)
    else
      var c, rest := s[0], s[1..];
      if quoted then
        if escaped then Scan(rest, stack, true, false)
        else if c == '\\' then Scan(rest, stack, true, true)
        else Scan(rest, stack, c != '"', false)
      else if c == '"' then Scan(rest, stack, true, escaped)
      else if Opens(c) then Scan(rest, stack + [c], false, escaped)
      else if Closes(c) && stack != [] then
        var popped := stack[..|stack| - 1];
        if !Matches(stack[|stack| - 1], c) then Mismatch(popped)
        else if popped == [] then Closed(rest)
        else Scan(rest, popped, false, escaped)
      else if Closes(c) then Closed(rest)
      else Scan(rest, stack, false, escaped)
  }

  /** The first fragment at or after `start` that closes and parses; none once a scan stops inside open brackets. */
  function FirstFragment<T>(value: string, start: nat, parse: string -> Option<T>): Option<T>
    requires start <= |value|
    decreases |value| - start
  {
    if start == |value| then None
    else if !Opens(value[start]) then FirstFragment(value, start + 1, parse)
    else
      match Scan(value[start..], [], false, false)
      case Closed(rest) =>
        var candidate := if |rest| <= |value| - start then value[start..|value| - |rest|] else "";
        if parse(candidate).Some? then parse(candidate) else FirstFragment(value, start + 1, parse)
      case Mismatch(stack) => if stack != [] then None else FirstFragment(value, start + 1, parse)
      case RanOut(stack) => if stack != [] then None else FirstFragment(value, start + 1, parse)
  }

  // ---------------------------------------------------------------- scanning a JSON text

  predicate IsPlain(t: string) {
    forall i :: 0 <= i < |t| ==> t[i] != '"' && !Opens(t[i]) && !Closes(t[i])
  }

  lemma {:induction false} ScanPlain(t: string, rest: string, stack: seq<char>)
    requires IsPlain(t)
    ensures Scan(t + rest, stack, false, false) == Scan(rest, stack, false, false)
  {
    if t == "" {
      assert t + rest == rest;
    } else {
      ScanPlain(t[1..], rest, stack);
      assert (t + rest)[1..] == t[1..] + rest;
    }
  }

  lemma {:induction false} ScanItems(items: seq<Item>, rest: string, stack: seq<char>)
    requires AreItems(items)
    ensures Scan(RenderItems(items) + rest, stack, true, false) == Scan(rest, stack, true, false)
  {
    if items == [] {
      assert RenderItems(items) + rest == rest;
    } else {
      var tail := RenderItems(items[1..]) + rest;
      ScanItems(items[1..], rest, stack);
      if items[0].Plain? {
        assert RenderItems(items) + rest == [items[0].c] + tail;
        assert ([items[0].c] + tail)[1..] == tail;
      } else {
        var s := ['\\', items[0].c] + tail;
        assert RenderItems(items) + rest == s;
        assert s[1..] == [items[0].c] + tail && s[1..][1..] == tail;
      }
    }
  }

  lemma ScanText(items: seq<Item>, rest: string, stack: seq<char>)
    requires AreItems(items)
    ensures Scan(RenderText(items) + rest, stack, false, false) == Scan(rest, stack, false, false)
  {
    var s := RenderText(items) + rest;
    assert s[1..] == RenderItems(items) + ("\"" + rest);
    ScanItems(items, "\"" + rest, stack);
    assert ("\"" + rest)[1..] == rest;
  }

  predicate IsBracketed(v: Value) {
    v.Arr? || v.Obj?
  }

  /** Scanning the text of a value leaves the open brackets as they were, or closes the last of them at its end. */
  lemma {:induction false} ScanValue(v: Value, rest: string, stack: seq<char>)
    requires IsValue(v)
    ensures Scan(Render(v) + rest, stack, false, false)
            == if IsBracketed(v) && stack == [] then Closed(rest) else Scan(rest, stack, false, false)
    decreases v, 1
  {
    match v
    case Scalar(text) => ScanPlain(text, rest, stack);
    case Text(items) => ScanText(items, rest, stack);
    case Arr(ws, elements) =>
      var inner := RenderElements(elements);
      ScanElements(elements, "]" + rest, stack + ['[']);
      ScanBracketed('[', ws, inner, ']', rest, stack);
      assert Render(v) + rest == "[" + ws + inner + "]" + rest;
    case Obj(ws, members) =>
      var inner := RenderMembers(members);
      ScanMembers(members, "}" + rest, stack + ['{']);
      ScanBracketed('{', ws, inner, '}', rest, stack);
      assert Render(v) + rest == "{" + ws + inner + "}" + rest;
  }

  lemma ScanOpening(opening: char, rest: string, stack: seq<char>)
    requires Opens(opening)
    ensures Scan([opening] + rest, stack, false, false) == Scan(rest, stack + [opening], false, false)
  {
    assert ([opening] + rest)[1..] == rest;
  }

  lemma ScanClosing(opening: char, closing: char, rest: string, stack: seq<char>)
    requires Opens(opening) && Closes(closing) && Matches(opening, closing)
    ensures Scan([closing] + rest, stack + [opening], false, false)
            == if stack == [] then Closed(rest) else Scan(rest, stack, false, false)
  {
    assert ([closing] + rest)[1..] == rest;
    assert (stack + [opening])[..|stack + [opening]| - 1] == stack;
  }

  /** A bracket, whitespace, a text that scans away inside it, and its closing bracket. */
  lemma ScanBracketed(opening: char, ws: string, inner: string, closing: char, rest: string, stack: seq<char>)
    requires Opens(opening) && Closes(closing) && Matches(opening, closing) && IsWhitespace(ws)
    requires Scan(inner + ([closing] + rest), stack + [opening], false, false)
             == Scan([closing] + rest, stack + [opening], false, false)
    ensures Scan([opening] + ws + inner + [closing] + rest, stack, false, false)
            == if stack == [] then Closed(rest) else Scan(rest, stack, false, false)
  {
    var tail := inner + ([closing] + rest);
    Regrouped([opening], ws, inner, [closing], rest);
    ScanOpening(opening, ws + tail, stack);
    ScanPlain(ws, tail, stack + [opening]);
    ScanClosing(opening, closing, rest, stack);
  }

  lemma Regrouped(a: string, b: string, c: string, d: string, e: string)
    ensures a + b + c + d + e == a + (b + (c + (d + e)))
  {
  }

  lemma {:induction false} ScanElements(e: Elements, rest: string, stack: seq<char>)
    requires AreElements(e) && stack != []
    ensures Scan(RenderElements(e) + rest, stack, false, false) == Scan(rest, stack, false, false)
    decreases e, 0
  {
    if e.EndOfElements? {
      assert RenderElements(e) + rest == rest;
    } else {
      var comma := if e.rest.Element? then "," else "";
      var tail := comma + (RenderElements(e.rest) + rest);
      assert RenderElements(e) + rest == e.before + (Render(e.value) + (e.after + tail));
      ScanPlain(e.before, Render(e.value) + (e.after + tail), stack);
      ScanValue(e.value, e.after + tail, stack);
      ScanPlain(e.after, tail, stack);
      ScanPlain(comma, RenderElements(e.rest) + rest, stack);
      ScanElements(e.rest, rest, stack);
    }
  }

  lemma {:induction false} ScanMembers(m: Members, rest: string, stack: seq<char>)
    requires AreMembers(m) && stack != []
    ensures Scan(RenderMembers(m) + rest, stack, false, false) == Scan(rest, stack, false, false)
    decreases m, 0
  {
    if m.EndOfMembers? {
      assert RenderMembers(m) + rest == rest;
    } else {
      var comma := if m.rest.Member? then "," else "";
      var tail := comma + (RenderMembers(m.rest) + rest);
      var middle := m.afterName + ":" + m.beforeValue;
      var valued := Render(m.value) + (m.after + tail);
      MemberRegrouped(m, rest, comma, middle);
      ScanName(m.before, m.name, middle, valued, stack);
      ScanValue(m.value, m.after + tail, stack);
      ScanPlain(m.after, tail, stack);
      ScanPlain(comma, RenderMembers(m.rest) + rest, stack);
      ScanMembers(m.rest, rest, stack);
    }
  }

  /** A name with its whitespace and colon. */
  lemma ScanName(before: string, name: seq<Item>, middle: string, rest: string, stack: seq<char>)
    requires IsPlain(before) && AreItems(name) && IsPlain(middle)
    ensures Scan(before + (RenderText(name) + (middle + rest)), stack, false, false) == Scan(rest, stack, false, false)
  {
    ScanPlain(before, RenderText(name) + (middle + rest), stack);
    ScanText(name, middle + rest, stack);
    ScanPlain(middle, rest, stack);
  }

  lemma MemberRegrouped(m: Members, rest: string, comma: string, middle: string)
    requires m.Member? && comma == (if m.rest.Member? then "," else "") && middle == m.afterName + ":" + m.beforeValue
    ensures RenderMembers(m) + rest
            == m.before + (RenderText(m.name) + (middle + (Render(m.value) + (m.after + (comma + (RenderMembers(m.rest) + rest))))))
  {
    var name, text, tail := RenderText(m.name), Render(m.value), RenderMembers(m.rest);
    assert RenderMembers(m) == m.before + name + m.afterName + ":" + m.beforeValue + text + m.after + comma + tail;
  }

  // ---------------------------------------------------------------- cutting the value out of free text

  lemma {:induction false} SkipsPrefix<T>(prefix: string, start: nat, rest: string, parse: string -> Option<T>)
    requires start <= |prefix| && forall i :: 0 <= i < |prefix| ==> !Opens(prefix[i])
    ensures FirstFragment(prefix + rest, start, parse) == FirstFragment(prefix + rest, |prefix|, parse)
    decreases |prefix| - start
  {
    if start < |prefix| {
      SkipsPrefix(prefix, start + 1, rest, parse);
    }
  }

  /**
   * After any text without an opening bracket, and whatever follows, exactly the text of the object or array is cut out
   * and its parse returned.
   */
  lemma CutsOutTheValue<T>(prefix: string, v: Value, suffix: string, parse: string -> Option<T>)
    requires (forall i :: 0 <= i < |prefix| ==> !Opens(prefix[i])) && IsValue(v) && IsBracketed(v)
    requires parse(Render(v)).Some?
    ensures FirstFragment(prefix + Render(v) + suffix, 0, parse) == parse(Render(v))
  {
    var value := prefix + Render(v) + suffix;
    assert value == prefix + (Render(v) + suffix);
    SkipsPrefix(prefix, 0, Render(v) + suffix, parse);
    assert value[|prefix|..] == Render(v) + suffix;
    ScanValue(v, suffix, []);
    assert value[|prefix|..|value| - |suffix|] == Render(v);
  }

  /** Scanning the text ends inside the open brackets, having closed some of them at most. */
  predicate StaysOpen(text: string, stack: seq<char>) {
    var verdict := Scan(text, stack, false, false);
    !verdict.Closed? && verdict.stack != []
  }

  lemma {:induction s, stack, quoted, escaped} ClosedLeavesNoMore(s: string, stack: seq<char>, quoted: bool, escaped: bool)
    ensures var verdict := Scan(s, stack, quoted, escaped); verdict.Closed? ==> |verdict.rest| < |s|
  {
  }

  /** The scan from a bracket before the value comes out of the value as it went in. */
  lemma ScanPastValue(opening: char, between: string, v: Value, suffix: string)
    requires Opens(opening) && IsPlain(between) && IsValue(v)
    ensures Scan([opening] + between + Render(v) + suffix, [], false, false) == Scan(suffix, [opening], false, false)
  {
    assert [opening] + between + Render(v) + suffix == [opening] + (between + (Render(v) + suffix));
    assert [] + [opening] == [opening];
    ScanOpening(opening, between + (Render(v) + suffix), []);
    ScanPlain(between, Render(v) + suffix, [opening]);
    ScanValue(v, suffix, [opening]);
  }

  lemma FragmentAt<T>(value: string, start: nat, verdict: Verdict, parse: string -> Option<T>)
    requires start < |value| && Opens(value[start]) && verdict == Scan(value[start..], [], false, false)
    ensures !verdict.Closed? && verdict.stack != [] ==> FirstFragment(value, start, parse) == None
    ensures verdict.Closed? && |verdict.rest| <= |value| - start && parse(value[start..|value| - |verdict.rest|]).Some? ==>
              FirstFragment(value, start, parse) == parse(value[start..|value| - |verdict.rest|])
  {
  }

  lemma PrefixDropped(prefix: string, rest: string, n: nat)
    requires n <= |rest|
    ensures (prefix + rest)[|prefix|..] == rest
    ensures (prefix + rest)[|prefix|..|prefix + rest| - n] == rest[..|rest| - n]
  {
  }

  lemma FoundAtFirstBracket<T>(prefix: string, rest: string, verdict: Verdict, parse: string -> Option<T>)
    requires (forall i :: 0 <= i < |prefix| ==> !Opens(prefix[i])) && rest != "" && Opens(rest[0])
    requires verdict == Scan(rest, [], false, false)
    ensures !verdict.Closed? && verdict.stack != [] ==> FirstFragment(prefix + rest, 0, parse) == None
    ensures verdict.Closed? && |verdict.rest| <= |rest| && parse(rest[..|rest| - |verdict.rest|]).Some? ==>
              FirstFragment(prefix + rest, 0, parse) == parse(rest[..|rest| - |verdict.rest|])
  {
    SkipsPrefix(prefix, 0, rest, parse);
    PrefixDropped(prefix, rest, if verdict.Closed? && |verdict.rest| <= |rest| then |verdict.rest| else 0);
    FragmentAt(prefix + rest, |prefix|, verdict, parse);
  }

  lemma InBrackets(text: string, suffix: string, n: nat)
    requires n <= |suffix|
    ensures (text + suffix)[..|text + suffix| - n] == text + suffix[..|suffix| - n]
  {
  }

  /** What is found in a text whose first bracket is left open by `text` and then scanned on through `suffix`. */
  ghost predicate Hides<T(!new)>(prefix: string, text: string, suffix: string, opening: char, parse: string -> Option<T>) {
    var found, verdict := FirstFragment(prefix + (text + suffix), 0, parse), Scan(suffix, [opening], false, false);
    && (StaysOpen(suffix, [opening]) ==> found == None)
    && (verdict.Closed? ==>
          && |verdict.rest| <= |suffix|
          && var inBrackets := text + suffix[..|suffix| - |verdict.rest|];
             parse(inBrackets).Some? ==> found == parse(inBrackets))
  }

  lemma LeftOpen<T(!new)>(prefix: string, text: string, suffix: string, opening: char, parse: string -> Option<T>)
    requires (forall i :: 0 <= i < |prefix| ==> !Opens(prefix[i])) && text != "" && Opens(text[0])
    requires Scan(text + suffix, [], false, false) == Scan(suffix, [opening], false, false)
    ensures Hides(prefix, text, suffix, opening, parse)
  {
    var rest, verdict := text + suffix, Scan(suffix, [opening], false, false);
    ClosedLeavesNoMore(suffix, [opening], false, false);
    FoundAtFirstBracket(prefix, rest, verdict, parse);
    if verdict.Closed? {
      InBrackets(text, suffix, |verdict.rest|);
    }
  }

  /**
   An opening bracket before the value hides it. If what follows the value does not close the bracket, nothing in the
   text is found; if it does, and the text in the brackets parses, that is what is found.
   */
  lemma OpenBracketHidesTheValue<T(!new)>(
      prefix: string, opening: char, between: string, v: Value, suffix: string, parse: string -> Option<T>)
    requires (forall i :: 0 <= i < |prefix| ==> !Opens(prefix[i])) && Opens(opening) && IsPlain(between) && IsValue(v)
    ensures Hides(prefix, [opening] + between + Render(v), suffix, opening, parse)
  {
    ScanPastValue(opening, between, v, suffix);
    LeftOpen(prefix, [opening] + between + Render(v), suffix, opening, parse);
  }

  // ---------------------------------------------------------------- brackets that are passed over

  ghost predicate NothingOpens(text: string) {
    forall i :: 0 <= i < |text| ==> !Opens(text[i])
  }

  /** What follows a text that ends a scan does not change how it ends. */
  lemma {:induction false} ScanStops(s: string, rest: string, stack: seq<char>, quoted: bool, escaped: bool)
    requires !Scan(s, stack, quoted, escaped).RanOut?
    ensures Scan(s + rest, stack, quoted, escaped)
            == match Scan(s, stack, quoted, escaped)
               case Closed(left) => Closed(left + rest)
               case Mismatch(open) => Mismatch(open)
    decreases |s|
  {
    var c, tail := s[0], s[1..];
    assert (s + rest)[1..] == tail + rest;
    if quoted {
      ScanStops(tail, rest, stack, if escaped then true else if c == '\\' then true else c != '"', !escaped && c == '\\');
    } else if c == '"' {
      ScanStops(tail, rest, stack, true, escaped);
    } else if Opens(c) {
      ScanStops(tail, rest, stack + [c], false, escaped);
    } else if Closes(c) {
      if stack != [] && Matches(stack[|stack| - 1], c) && |stack| > 1 {
        ScanStops(tail, rest, stack[..|stack| - 1], false, escaped);
      }
    } else {
      ScanStops(tail, rest, stack, false, escaped);
    }
  }

  lemma {:induction false} SameFromThere<T>(prefix: string, rest: string, k: nat, parse: string -> Option<T>)
    requires k <= |rest|
    ensures FirstFragment(prefix + rest, |prefix| + k, parse) == FirstFragment(rest, k, parse)
    decreases |rest| - k
  {
    var value := prefix + rest;
    if k < |rest| {
      assert value[|prefix| + k..] == rest[k..];
      SameFromThere(prefix, rest, k + 1, parse);
      if Opens(rest[k]) {
        ClosedLeavesNoMore(rest[k..], [], false, false);
        var verdict := Scan(rest[k..], [], false, false);
        if verdict.Closed? {
          assert value[|prefix| + k..|value| - |verdict.rest|] == rest[k..|rest| - |verdict.rest|];
        }
      }
    }
  }

  /**
   A text that opens a bracket at its beginning and nowhere else: it closes it at its end and does not parse, or it has a
   closing bracket that does not match it.
   */
  ghost predicate IsSpoiled<T(!new)>(b: string, parse: string -> Option<T>) {
    && b != "" && Opens(b[0]) && NothingOpens(b[1..])
    && (Scan(b, [], false, false) == Closed("") ==> parse(b).None?)
    && Scan(b, [], false, false) in {Closed(""), Mismatch([])}
  }

  /** Brackets around a text without brackets and quotation marks, unless they match and their text parses. */
  lemma BracketsAreSpoiled<T(!new)>(opening: char, inner: string, closing: char, parse: string -> Option<T>)
    requires Opens(opening) && Closes(closing) && IsPlain(inner)
    ensures var b := [opening] + inner + [closing];
      IsSpoiled(b, parse) <==> (opening == '[' && closing == '}') || (opening == '{' && closing == ']') || parse(b).None?
  {
    var b := [opening] + inner + [closing];
    assert b == [opening] + (inner + [closing]) && b[1..] == inner + [closing];
    assert [] + [opening] == [opening];
    ScanOpening(opening, inner + [closing], []);
    ScanPlain(inner, [closing], [opening]);
    assert [closing] == [closing] + "";
    if Matches(opening, closing) {
      ScanClosing(opening, closing, "", []);
    }
  }

  lemma {:induction false} PassesOver<T(!new)>(value: string, start: nat, end: nat, parse: string -> Option<T>)
    requires start <= end <= |value| && NothingOpens(value[start..end])
    ensures FirstFragment(value, start, parse) == FirstFragment(value, end, parse)
    decreases end - start
  {
    if start < end {
      assert value[start] == value[start..end][0] && value[start + 1..end] == value[start..end][1..];
      PassesOver(value, start + 1, end, parse);
    }
  }

  lemma SpoiledStart<T(!new)>(b: string, rest: string, parse: string -> Option<T>)
    requires IsSpoiled(b, parse)
    ensures FirstFragment(b + rest, 0, parse) == FirstFragment(rest, 0, parse)
  {
    var value := b + rest;
    assert value[0..] == value && value[0] == b[0];
    ScanStops(b, rest, [], false, false);
    assert "" + rest == rest && value[0..|value| - |rest|] == b;
    assert FirstFragment(value, 0, parse) == FirstFragment(value, 1, parse);
    assert value[1..|b|] == b[1..];
    PassesOver(value, 1, |b|, parse);
    SameFromThere(b, rest, 0, parse);
  }

  /** What comes before the value: texts without opening brackets, each followed by a spoiled bracket. */
  datatype Passage = Passage(words: string, bracket: string)

  function RenderPassages(passages: seq<Passage>): string {
    if passages == [] then "" else passages[0].words + (passages[0].bracket + RenderPassages(passages[1..]))
  }

  lemma {:induction false} PassagesArePassedOver<T(!new)>(passages: seq<Passage>, rest: string, parse: string -> Option<T>)
    requires forall i :: 0 <= i < |passages| ==> NothingOpens(passages[i].words) && IsSpoiled(passages[i].bracket, parse)
    ensures FirstFragment(RenderPassages(passages) + rest, 0, parse) == FirstFragment(rest, 0, parse)
  {
    if passages == [] {
      assert RenderPassages(passages) + rest == rest;
    } else {
      var words, bracket, later := passages[0].words, passages[0].bracket, RenderPassages(passages[1..]) + rest;
      assert RenderPassages(passages) + rest == words + (bracket + later);
      SkipsPrefix(words, 0, bracket + later, parse);
      SameFromThere(words, bracket + later, 0, parse);
      SpoiledStart(bracket, later, parse);
      PassagesArePassedOver(passages[1..], rest, parse);
    }
  }

  /** Brackets that do not parse do not hide the value: it is found behind any number of them. */
  lemma ValueBehindSpoiledBrackets<T(!new)>(
      passages: seq<Passage>, prefix: string, v: Value, suffix: string, parse: string -> Option<T>)
    requires forall i :: 0 <= i < |passages| ==> NothingOpens(passages[i].words) && IsSpoiled(passages[i].bracket, parse)
    requires NothingOpens(prefix) && IsValue(v) && IsBracketed(v) && parse(Render(v)).Some?
    ensures FirstFragment(RenderPassages(passages) + (prefix + Render(v) + suffix), 0, parse) == parse(Render(v))
  {
    PassagesArePassedOver(passages, prefix + Render(v) + suffix, parse);
    CutsOutTheValue(prefix, v, suffix, parse);
  }

  /** Behind them nothing is found where nothing opens. */
  lemma NothingBehindSpoiledBrackets<T(!new)>(passages: seq<Passage>, suffix: string, parse: string -> Option<T>)
    requires forall i :: 0 <= i < |passages| ==> NothingOpens(passages[i].words) && IsSpoiled(passages[i].bracket, parse)
    requires NothingOpens(suffix)
    ensures FirstFragment(RenderPassages(passages) + suffix, 0, parse) == None
  {
    PassagesArePassedOver(passages, suffix, parse);
    assert suffix[0..|suffix|] == suffix;
    PassesOver(suffix, 0, |suffix|, parse);
  }

  /** The fragment that a bracket at `k` opens: its text, if it is closed and parses, or nothing at all if it stays open. */
  ghost predicate Decides<T(!new)>(value: string, k: nat, parse: string -> Option<T>, found: Option<T>)
    requires k < |value|
  {
    Opens(value[k])
    && match Scan(value[k..], [], false, false)
       case Closed(rest) => |rest| <= |value| - k && found.Some? && found == parse(value[k..|value| - |rest|])
       case Mismatch(stack) => stack != [] && found == None
       case RanOut(stack) => stack != [] && found == None
  }

  lemma DecidesOrIsPassed<T(!new)>(value: string, k: nat, parse: string -> Option<T>)
    requires k < |value|
    ensures Decides(value, k, parse, FirstFragment(value, k, parse))
            || (FirstFragment(value, k, parse) == FirstFragment(value, k + 1, parse) && forall x :: !Decides(value, k, parse, x))
  {
    ClosedLeavesNoMore(value[k..], [], false, false);
  }

  /** In any text, the first bracket that decides what is found does; if none decides, nothing is found. */
  lemma {:induction false} FirstBracketDecides<T(!new)>(value: string, start: nat, parse: string -> Option<T>) returns (k: nat)
    requires start <= |value|
    ensures start <= k <= |value| && forall j, x :: start <= j < k ==> !Decides(value, j, parse, x)
    ensures if k == |value| then FirstFragment(value, start, parse) == None
            else Decides(value, k, parse, FirstFragment(value, start, parse))
    decreases |value| - start
  {
    k := start;
    if start < |value| {
      DecidesOrIsPassed(value, start, parse);
      if !Decides(value, start, parse, FirstFragment(value, start, parse)) {
        k := FirstBracketDecides(value, start + 1, parse);
      }
    }
  }

  // ---------------------------------------------------------------- the loops

  /** The inner loop: `end` is just past the closing bracket, if the scan closes. */
  method ScanFrom(value: string, start: nat) returns (verdict: Verdict, end: nat)
    requires start < |value| && Opens(value[start])
    ensures verdict == Scan(value[start..], [], false, false)
    ensures verdict.Closed? ==> start < end == |value| - |verdict.rest|
  {
    var stack: seq<char> := [];
    var quoted, escaped := false, false;
    for index := start to |value|
      invariant Scan(value[start..], [], false, false) == Scan(value[index..], stack, quoted, escaped)
      invariant (escaped ==> quoted) && (if index == start then !quoted && stack == [] else stack != [])
    {
      var character := value[index];
      assert value[index..][0] == character && value[index..][1..] == value[index + 1..];
      if quoted {
        if escaped {
          escaped := false;
        } else if character == '\\' {
          escaped := true;
        } else if character == '"' {
          quoted := false;
        }
        continue;
      }
      if character == '"' {
        quoted := true;
        continue;
      }
      if Opens(character) {
        stack := stack + [character];
      } else if Closes(character) {
        var opening := stack[|stack| - 1];
        stack := stack[..|stack| - 1];
        if !Matches(opening, character) {
          return Mismatch(stack), index;
        }
        if |stack| == 0 {
          return Closed(value[index + 1..]), index + 1;
        }
      }
    }
    verdict, end := RanOut(stack), |value|;
  }

  method FirstJsonFragment<T>(value: string, parse: string -> Option<T>) returns (r: Option<T>)
    ensures r == FirstFragment(value, 0, parse)
  {
    for start := 0 to |value|
      invariant FirstFragment(value, 0, parse) == FirstFragment(value, start, parse)
    {
      if !Opens(value[start]) {
        continue;
      }
      var verdict, end := ScanFrom(value, start);
      if verdict.Closed? {
        var candidate := value[start..end];
        if parse(candidate).Some? {
          return parse(candidate);
        }
      } else if verdict.stack != [] {
        return None;
      }
    }
    r := None;
  }
}
