/**
 * The name a personal voice room gets (`buildChannelName` in both revisions of
 * the voice room manager): line breaks become a space, every character outside
 * letters, digits, whitespace, apostrophe and hyphen is dropped, the result is
 * trimmed and suffixed with "'s Room" (or replaced by "Private Room" when
 * nothing is left), and the name is cut to the platform's 100-character limit.
 */
module ChannelName {

  /** The platform's limit on a channel name (`substring(0, 100)`). */
  const MaxNameLength: nat := 100

  const RoomSuffix: string := "'s Room"

  const FallbackName: string := "Private Room"

  /**
   * The characters ECMAScript's `\s` class matches, which is also the set
   * `String.prototype.trim` strips: WhiteSpace (tab, vertical tab, form feed,
   * space, no-break space, byte order mark and the Zs category) and
   * LineTerminator (LF, CR, LS, PS).
   */
  predicate IsJsWhitespace(c: char) {
    || c == '\t' || c == '\n' || c == '\U{B}' || c == '\U{C}' || c == '\r'
    || c == ' ' || c == '\U{A0}' || c == '\U{1680}'
    || ('\U{2000}' <= c <= '\U{200A}')
    || c == '\U{2028}' || c == '\U{2029}' || c == '\U{202F}' || c == '\U{205F}'
    || c == '\U{3000}' || c == '\U{FEFF}'
  }

  /** The class `[\n\r]`. */
  predicate IsLineBreak(c: char) {
    c == '\n' || c == '\r'
  }

  /**
   * The class `[\p{L}\p{N}\s'-]`. Unicode's letter and number categories are
   * not tabulated here: `letterOrNumber` stands for them.
   */
  predicate Kept(c: char, letterOrNumber: char -> bool) {
    letterOrNumber(c) || IsJsWhitespace(c) || c == '\'' || c == '-'
  }

  /** The index of the first character at or after `i` that is no CR/LF (|s| when there is none). */
  function LineBreakRunEnd(s: string, i: nat): (end: nat)
    requires i <= |s|
    ensures i <= end <= |s|
    ensures forall k :: i <= k < end ==> IsLineBreak(s[k])
    ensures end < |s| ==> !IsLineBreak(s[end])
    decreases |s| - i
  {
    if i < |s| && IsLineBreak(s[i]) then LineBreakRunEnd(s, i + 1) else i
  }

  /** `s.replace(/[\n\r]+/g, " ")`: every maximal run of CR/LF becomes one space. */
  function CollapseLineBreaks(s: string): (r: string)
    ensures forall i :: 0 <= i < |r| ==> !IsLineBreak(r[i])
    ensures |r| <= |s|
    decreases |s|
  {
    if s == [] then []
    else if IsLineBreak(s[0]) then [' '] + CollapseLineBreaks(s[LineBreakRunEnd(s, 1)..])
    else [s[0]] + CollapseLineBreaks(s[1..])
  }

  /**
   * `s.replace(/[^\p{L}\p{N}\s'-]/gu, "")`: only kept characters remain (and,
   * by StripDisallowedCounts, each kept character as often as in `s`).
   */
  function StripDisallowed(s: string, letterOrNumber: char -> bool): (r: string)
    ensures forall i :: 0 <= i < |r| ==> Kept(r[i], letterOrNumber)
    ensures |r| <= |s|
    ensures (forall i :: 0 <= i < |s| ==> !IsLineBreak(s[i])) ==> forall i :: 0 <= i < |r| ==> !IsLineBreak(r[i])
  {
    if s == [] then []
    else
      (if Kept(s[0], letterOrNumber) then [s[0]] else []) + StripDisallowed(s[1..], letterOrNumber)
  }

  /** Stripping works character by character: a kept character stays, any other goes. */
  lemma StripOne(c: char, letterOrNumber: char -> bool)
    ensures StripDisallowed([c], letterOrNumber) == if Kept(c, letterOrNumber) then [c] else []
  {
    assert [c][1..] == [];
  }

  /** Stripping distributes over concatenation, so the kept characters keep their order. */
  lemma {:induction false} StripConcat(a: string, b: string, letterOrNumber: char -> bool)
    ensures StripDisallowed(a + b, letterOrNumber) == StripDisallowed(a, letterOrNumber) + StripDisallowed(b, letterOrNumber)
  {
    if a != [] {
      assert (a + b)[0] == a[0];
      assert (a + b)[1..] == a[1..] + b;
      StripConcat(a[1..], b, letterOrNumber);
    } else {
      assert a + b == b;
    }
  }

  /** Stripping removes every other character and no kept one. */
  lemma {:induction false} StripDisallowedCounts(s: string, letterOrNumber: char -> bool, c: char)
    ensures multiset(StripDisallowed(s, letterOrNumber))[c] == if Kept(c, letterOrNumber) then multiset(s)[c] else 0
  {
    if s != [] {
      StripDisallowedCounts(s[1..], letterOrNumber, c);
      assert s == [s[0]] + s[1..];
    }
  }

  /** The index of the first non-whitespace character at or after `i` (|s| when there is none). */
  function LeadingWhitespace(s: string, i: nat): (lead: nat)
    requires i <= |s|
    ensures i <= lead <= |s|
    ensures forall k :: i <= k < lead ==> IsJsWhitespace(s[k])
    ensures lead < |s| ==> !IsJsWhitespace(s[lead])
    decreases |s| - i
  {
    if i < |s| && IsJsWhitespace(s[i]) then LeadingWhitespace(s, i + 1) else i
  }

  /**
   * The end of `s[lo..end]` once its trailing whitespace is dropped: the
   * index just after its last non-whitespace character (`lo` when there is none).
   */
  function TrailingWhitespace(s: string, lo: nat, end: nat): (stop: nat)
    requires lo <= end <= |s|
    ensures lo <= stop <= end
    ensures forall k :: stop <= k < end ==> IsJsWhitespace(s[k])
    ensures lo < stop ==> !IsJsWhitespace(s[stop - 1])
    decreases end - lo
  {
    if lo < end && IsJsWhitespace(s[end - 1]) then TrailingWhitespace(s, lo, end - 1) else end
  }

  /**
   * `trim`: the result is the slice of `s` that starts at its first
   * non-whitespace character and neither starts nor ends with whitespace;
   * everything cut away on either side is whitespace.
   */
  function Trim(s: string): (r: string)
    ensures r == [] || (!IsJsWhitespace(r[0]) && !IsJsWhitespace(r[|r| - 1]))
    ensures var lead := LeadingWhitespace(s, 0);
      && lead + |r| <= |s| && r == s[lead..lead + |r|]
      && (forall i :: 0 <= i < lead ==> IsJsWhitespace(s[i]))
      && (forall i :: lead + |r| <= i < |s| ==> IsJsWhitespace(s[i]))
  {
    var lead := LeadingWhitespace(s, 0);
    s[lead..TrailingWhitespace(s, lead, |s|)]
  }

  /** Every character of a slice of `s` has the properties every character of `s` has. */
  lemma SliceKeeps(s: string, lead: nat, r: string, p: char -> bool)
    requires lead + |r| <= |s| && r == s[lead..lead + |r|]
    requires forall i :: 0 <= i < |s| ==> p(s[i])
    ensures forall i :: 0 <= i < |r| ==> p(r[i])
  {
    forall i | 0 <= i < |r|
      ensures p(r[i])
    {
      assert r[i] == s[lead + i];
    }
  }

  /** The sanitised base name of `buildChannelName`. */
  function Sanitise(displayName: string, letterOrNumber: char -> bool): (base: string)
    ensures forall i :: 0 <= i < |base| ==> !IsLineBreak(base[i]) && Kept(base[i], letterOrNumber)
    ensures base == [] || (!IsJsWhitespace(base[0]) && !IsJsWhitespace(base[|base| - 1]))
    ensures |base| <= |displayName|
  {
    var collapsed := CollapseLineBreaks(displayName);
    var stripped := StripDisallowed(collapsed, letterOrNumber);
    var base := Trim(stripped);
    SliceKeeps(stripped, LeadingWhitespace(stripped, 0), base,
               c => !IsLineBreak(c) && Kept(c, letterOrNumber));
    base
  }

  /** `s.substring(0, n)` for `n >= 0`. */
  function Truncate(s: string, n: nat): (r: string)
    ensures |r| == if |s| <= n then |s| else n
    ensures r == s[..|r|]
  {
    if |s| <= n then s else s[..n]
  }

  /**
   * `buildChannelName`: never longer than the limit; "Private Room" exactly
   * when sanitising leaves nothing; otherwise a prefix of base + "'s Room" as
   * long as the limit allows.
   */
  function BuildChannelName(displayName: string, letterOrNumber: char -> bool): (name: string)
    ensures |name| <= MaxNameLength
    ensures Sanitise(displayName, letterOrNumber) == [] ==> name == FallbackName
    ensures var base := Sanitise(displayName, letterOrNumber);
      base != [] ==>
        var full := base + RoomSuffix;
        |name| == (if |full| <= MaxNameLength then |full| else MaxNameLength) && name == full[..|name|]
  {
    var base := Sanitise(displayName, letterOrNumber);
    var finalName := if base != [] then base + RoomSuffix else FallbackName;
    Truncate(finalName, MaxNameLength)
  }
}

/** What the channel name promises, stated across the functions above. */
module ChannelNameProperties {
  import opened ChannelName

  /** A string without CR/LF passes the line-break replacement untouched. */
  lemma {:induction false} CollapseWithoutLineBreaks(s: string)
    requires forall i :: 0 <= i < |s| ==> !IsLineBreak(s[i])
    ensures CollapseLineBreaks(s) == s
  {
    if s != [] {
      CollapseWithoutLineBreaks(s[1..]);
    }
  }

  /**
   * One maximal run of CR/LF after a break-free prefix is replaced by exactly
   * one space, and the replacement carries on after the run.
   */
  lemma {:induction false} CollapseOneRun(prefix: string, run: string, rest: string)
    requires forall i :: 0 <= i < |prefix| ==> !IsLineBreak(prefix[i])
    requires run != [] && forall i :: 0 <= i < |run| ==> IsLineBreak(run[i])
    requires rest == [] || !IsLineBreak(rest[0])
    ensures CollapseLineBreaks(prefix + run + rest) == prefix + " " + CollapseLineBreaks(rest)
  {
    if prefix == [] {
      assert prefix + run + rest == run + rest;
      CollapseRunAtStart(run, rest);
    } else {
      var tail := prefix[1..] + run + rest;
      assert prefix + run + rest == [prefix[0]] + tail;
      CollapseKeepsHead(prefix[0], tail);
      CollapseOneRun(prefix[1..], run, rest);
      assert prefix + " " + CollapseLineBreaks(rest) == [prefix[0]] + (prefix[1..] + " " + CollapseLineBreaks(rest));
    }
  }

  /** A run at the very start becomes one space. */
  lemma CollapseRunAtStart(run: string, rest: string)
    requires run != [] && forall i :: 0 <= i < |run| ==> IsLineBreak(run[i])
    requires rest == [] || !IsLineBreak(rest[0])
    ensures CollapseLineBreaks(run + rest) == " " + CollapseLineBreaks(rest)
  {
    var x := run + rest;
    assert IsLineBreak(x[0]);
    RunEndsAtRest(run, rest, 1);
    assert x[|run|..] == rest;
  }

  /** A character that is no line break is kept as it is. */
  lemma CollapseKeepsHead(c: char, t: string)
    requires !IsLineBreak(c)
    ensures CollapseLineBreaks([c] + t) == [c] + CollapseLineBreaks(t)
  {
    assert ([c] + t)[1..] == t;
  }

  /** A run of line breaks followed by something else ends exactly where the run does. */
  lemma {:induction false} RunEndsAtRest(run: string, rest: string, i: nat)
    requires i <= |run|
    requires forall k :: 0 <= k < |run| ==> IsLineBreak(run[k])
    requires rest == [] || !IsLineBreak(rest[0])
    ensures LineBreakRunEnd(run + rest, i) == |run|
    decreases |run| - i
  {
    var x := run + rest;
    if i < |run| {
      assert x[i] == run[i];
      RunEndsAtRest(run, rest, i + 1);
    } else if rest != [] {
      assert x[i] == rest[0];
    }
  }

  /** "Private Room" is produced exactly when the sanitised base is empty. */
  lemma FallbackExactlyWhenBaseEmpty(displayName: string, letterOrNumber: char -> bool)
    ensures BuildChannelName(displayName, letterOrNumber) == FallbackName
        <==> Sanitise(displayName, letterOrNumber) == []
  {
    var base := Sanitise(displayName, letterOrNumber);
    var name := BuildChannelName(displayName, letterOrNumber);
    if base != [] {
      var full := base + RoomSuffix;
      if |full| <= MaxNameLength {
        assert name == full && full[|base|] == '\'';
        assert FallbackName[5] == 't';
      } else {
        assert |name| == MaxNameLength != |FallbackName|;
      }
    }
  }

  /** A base of at most 93 characters keeps the whole "'s Room" suffix. */
  lemma ShortBaseKeepsSuffix(displayName: string, letterOrNumber: char -> bool)
    requires |Sanitise(displayName, letterOrNumber)| + |RoomSuffix| <= MaxNameLength
    requires Sanitise(displayName, letterOrNumber) != []
    ensures BuildChannelName(displayName, letterOrNumber) == Sanitise(displayName, letterOrNumber) + RoomSuffix
  {
  }

  lemma CollapseExample(displayName: string)
    requires displayName == "a/b\n<c>"
    ensures CollapseLineBreaks(displayName) == "a/b <c>"
  {
    assert displayName == "a/b" + "\n" + "<c>";
    CollapseOneRun("a/b", "\n", "<c>");
    CollapseWithoutLineBreaks("<c>");
  }

  lemma StripExampleTail(collapsed: string, letterOrNumber: char -> bool)
    requires collapsed == "a/b <c>"
    requires letterOrNumber('c') && !letterOrNumber('<') && !letterOrNumber('>')
    ensures StripDisallowed(collapsed[3..], letterOrNumber) == " c"
  {
    assert !Kept('>', letterOrNumber) && !Kept('<', letterOrNumber);
    assert StripDisallowed(collapsed[7..], letterOrNumber) == "";
    assert StripDisallowed(collapsed[6..], letterOrNumber) == "";
    assert StripDisallowed(collapsed[5..], letterOrNumber) == "c";
    assert StripDisallowed(collapsed[4..], letterOrNumber) == "c";
  }

  lemma StripExample(collapsed: string, letterOrNumber: char -> bool)
    requires collapsed == "a/b <c>"
    requires letterOrNumber('a') && letterOrNumber('b') && letterOrNumber('c')
    requires !letterOrNumber('/') && !letterOrNumber('<') && !letterOrNumber('>')
    ensures StripDisallowed(collapsed, letterOrNumber) == "ab c"
  {
    assert !Kept('/', letterOrNumber);
    StripExampleTail(collapsed, letterOrNumber);
    assert StripDisallowed(collapsed[2..], letterOrNumber) == "b c";
    assert StripDisallowed(collapsed[1..], letterOrNumber) == "b c";
  }

  lemma TrimExample(stripped: string)
    requires stripped == "ab c"
    ensures Trim(stripped) == "ab c"
  {
    assert !IsJsWhitespace(stripped[0]) && !IsJsWhitespace(stripped[3]);
    assert LeadingWhitespace(stripped, 0) == 0;
    assert TrailingWhitespace(stripped, 0, 4) == 4;
  }

  /**
   * The worked example of the room naming rule: slash and angle brackets are
   * dropped, the newline becomes a space.
   */
  lemma SanitiseExample(displayName: string, letterOrNumber: char -> bool)
    requires displayName == "a/b\n<c>"
    requires letterOrNumber('a') && letterOrNumber('b') && letterOrNumber('c')
    requires !letterOrNumber('/') && !letterOrNumber('<') && !letterOrNumber('>')
    ensures Sanitise(displayName, letterOrNumber) == "ab c"
  {
    CollapseExample(displayName);
    var collapsed := CollapseLineBreaks(displayName);
    StripExample(collapsed, letterOrNumber);
    TrimExample(StripDisallowed(collapsed, letterOrNumber));
  }

  /** The room that worked example gets. */
  lemma RoomNameExample(displayName: string, letterOrNumber: char -> bool)
    requires displayName == "a/b\n<c>"
    requires letterOrNumber('a') && letterOrNumber('b') && letterOrNumber('c')
    requires !letterOrNumber('/') && !letterOrNumber('<') && !letterOrNumber('>')
    ensures BuildChannelName(displayName, letterOrNumber) == "ab c's Room"
  {
    SanitiseExample(displayName, letterOrNumber);
    ExampleBaseName(displayName, letterOrNumber);
  }

  lemma ExampleBaseName(displayName: string, letterOrNumber: char -> bool)
    requires Sanitise(displayName, letterOrNumber) == "ab c"
    ensures BuildChannelName(displayName, letterOrNumber) == "ab c's Room"
  {
    ShortBaseKeepsSuffix(displayName, letterOrNumber);
  }
}
