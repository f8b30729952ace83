/**
 * Glob matching for policy conditions. A literal character matches itself, `*` matches
 * a run of characters containing no `/`, and `**` matches any run, `/` included; a `/`
 * right after `**` is optional, so `**` followed by `/` may stand for no segment at all.
 *
 * `Matches` is the algorithm written over pattern and value suffixes; `MatchInternal` is
 * the cursor loop with backtracking, proved to compute it; the lemmas below say what
 * `Matches` means.
 */
module Matcher {

  /** `strings.IndexByte(s, '/')`: the index of the first `/`, or -1 when there is none. */
  function IndexOfSlash(s: string): (r: int)
    ensures -1 <= r < |s|
    ensures r == -1 ==> '/' !in s
    ensures r >= 0 ==> s[r] == '/' && '/' !in s[..r]
  {
    if s == [] then -1
    else if s[0] == '/' then 0
    else
      var k := IndexOfSlash(s[1..]);
      assert k >= 0 ==> s[..k + 1] == [s[0]] + s[1..][..k];
      if k < 0 then -1 else k + 1
  }

  /**
   * Whether `pattern` matches `value`, following the matcher's case order: both empty,
   * pattern empty, `**`, `*`, value empty, literal character. Every recursive call is on a
   * strictly shorter suffix of the pattern.
   */
  function Matches(pattern: string, value: string): bool
    decreases |pattern|, 0
  {
    if pattern == [] then value == []
    else if 1 < |pattern| && pattern[0] == '*' && pattern[1] == '*' then
      var rest := pattern[2..];
      if rest == [] then true
      else
        var rest' := if rest[0] == '/' then rest[1..] else rest;
        SomeSuffixMatches(rest', value, |value|)
    else if pattern[0] == '*' then
      var rest := pattern[1..];
      // Is the literal text between the `*` and the pattern's next `/` empty?
      if rest == [] || rest[0] == '/' then
        var valueSlash := IndexOfSlash(value);
        if valueSlash >= 0 then Matches(rest, value[valueSlash..]) else Matches(rest, [])
      else
        SomeSuffixMatches(rest, value, SegmentEnd(value))
    else if value == [] then false
    else pattern[0] == value[0] && Matches(pattern[1..], value[1..])
  }

  /** The end of the value's first segment: its first `/`, or its length. */
  function SegmentEnd(value: string): (e: nat)
    ensures e <= |value| && '/' !in value[..e]
    ensures e < |value| ==> value[e] == '/'
  {
    var valueSlash := IndexOfSlash(value);
    if valueSlash >= 0 then valueSlash else |value|
  }

  /** The backtracking step: `pattern` matches `value[i..]` for some split point `i <= hi`. */
  predicate SomeSuffixMatches(pattern: string, value: string, hi: nat)
    requires hi <= |value|
    decreases |pattern|, 1
  {
    exists i :: 0 <= i <= hi && Matches(pattern, value[i..])
  }

  /** Backtracking over the suffixes of `value[vi..]` is backtracking over absolute positions from `vi`. */
  lemma SuffixShift(q: string, value: string, vi: nat, hi: nat)
    requires vi <= hi <= |value|
    ensures SomeSuffixMatches(q, value[vi..], hi - vi)
        <==> exists i :: vi <= i <= hi && Matches(q, value[i..])
  {
    var v := value[vi..];
    if SomeSuffixMatches(q, v, hi - vi) {
      var j :| 0 <= j <= hi - vi && Matches(q, v[j..]);
      assert v[j..] == value[vi + j..];
    }
    if i :| vi <= i <= hi && Matches(q, value[i..]) {
      assert v[i - vi..] == value[i..];
    }
  }

  /** The `**` step at cursors `pi`, `vi`: the rest of the pattern, past an optional `/`, is tried at every later position. */
  lemma UnfoldDoubleStar(pattern: string, value: string, pi: nat, vi: nat, next: nat)
    requires pi + 2 < |pattern| && vi <= |value| && pattern[pi] == '*' && pattern[pi + 1] == '*'
    requires next == if pattern[pi + 2] == '/' then pi + 3 else pi + 2
    ensures Matches(pattern[pi..], value[vi..])
        <==> exists i :: vi <= i <= |value| && Matches(pattern[next..], value[i..])
  {
    var p := pattern[pi..];
    assert p[2..] == pattern[pi + 2..];
    assert pattern[next..] == (if p[2..][0] == '/' then p[2..][1..] else p[2..]);
    SuffixShift(pattern[next..], value, vi, |value|);
  }

  /** The `*` step when literal text follows it: the rest is tried at every position up to the value's next `/`. */
  lemma UnfoldStarSearch(pattern: string, value: string, pi: nat, vi: nat)
    requires pi + 1 < |pattern| && vi <= |value| && pattern[pi] == '*'
    requires pattern[pi + 1] != '*' && pattern[pi + 1] != '/'
    ensures Matches(pattern[pi..], value[vi..])
        <==> exists i :: vi <= i <= vi + SegmentEnd(value[vi..]) && Matches(pattern[pi + 1..], value[i..])
  {
    var p := pattern[pi..];
    assert p[1..] == pattern[pi + 1..];
    SuffixShift(pattern[pi + 1..], value, vi, vi + SegmentEnd(value[vi..]));
  }

  /** The `*` step when `/` or the end follows it: the `*` takes everything up to the value's next `/`. */
  lemma UnfoldStarSegment(pattern: string, value: string, pi: nat, vi: nat)
    requires pi < |pattern| && vi <= |value| && pattern[pi] == '*'
    requires pi + 1 == |pattern| || pattern[pi + 1] == '/'
    ensures Matches(pattern[pi..], value[vi..])
        == if IndexOfSlash(value[vi..]) >= 0
           then Matches(pattern[pi + 1..], value[vi + IndexOfSlash(value[vi..])..])
           else Matches(pattern[pi + 1..], [])
  {
    var p, v := pattern[pi..], value[vi..];
    assert p[1..] == pattern[pi + 1..];
    var valueSlash := IndexOfSlash(v);
    assert valueSlash >= 0 ==> v[valueSlash..] == value[vi + valueSlash..];
  }

  /** The literal step: equal characters are consumed together. */
  lemma UnfoldLiteral(pattern: string, value: string, pi: nat, vi: nat)
    requires pi < |pattern| && vi < |value| && pattern[pi] != '*'
    ensures Matches(pattern[pi..], value[vi..])
        == (pattern[pi] == value[vi] && Matches(pattern[pi + 1..], value[vi + 1..]))
  {
    var p, v := pattern[pi..], value[vi..];
    assert p[1..] == pattern[pi + 1..] && v[1..] == value[vi + 1..];
  }

  /**
   * The backtracking loops of `matchInternal`: the rest of the pattern is tried at every
   * position of the value from `lo` to `hi`, and the first success ends the search.
   */
  method TrySplits(q: string, value: string, lo: nat, hi: nat) returns (b: bool)
    requires lo <= hi <= |value|
    ensures b <==> exists i :: lo <= i <= hi && Matches(q, value[i..])
    decreases |q|, 2
  {
    for i := lo to hi + 1
      invariant forall j :: lo <= j < i ==> !Matches(q, value[j..])
    {
      var m := MatchInternal(q, value[i..]);
      if m {
        return true;
      }
    }
    return false;
  }

  /** The `**` branch of `matchInternal`, entered with the cursors on the first `*`. */
  method DoubleStarStep(pattern: string, value: string, pi: nat, vi: nat) returns (b: bool)
    requires pi + 1 < |pattern| && vi <= |value| && pattern[pi] == '*' && pattern[pi + 1] == '*'
    ensures b == Matches(pattern[pi..], value[vi..])
    decreases |pattern| - pi, 0
  {
    var next := pi + 2;
    if next >= |pattern| {
      assert pattern[pi..][0] == '*' && pattern[pi..][1] == '*';
      return true;
    }
    if next < |pattern| && pattern[next] == '/' {
      next := next + 1;
    }
    UnfoldDoubleStar(pattern, value, pi, vi, next);
    b := TrySplits(pattern[next..], value, vi, |value|);
  }

  /** The `*` branch of `matchInternal`, entered with the cursors on a `*` not followed by another. */
  method StarStep(pattern: string, value: string, pi: nat, vi: nat) returns (b: bool)
    requires pi < |pattern| && vi <= |value| && pattern[pi] == '*'
    requires pi + 1 < |pattern| ==> pattern[pi + 1] != '*'
    ensures b == Matches(pattern[pi..], value[vi..])
    decreases |pattern| - pi, 0
  {
    var next := pi + 1;
    // What follows the `*` up to the next `/` of the pattern.
    var nextSlash := IndexOfSlash(pattern[next..]);
    var suffix := if nextSlash >= 0 then pattern[next..next + nextSlash] else pattern[next..];
    // `*` never crosses a `/` of the value.
    var valueSlash := IndexOfSlash(value[vi..]);
    var searchEnd := |value|;
    if valueSlash >= 0 {
      searchEnd := vi + valueSlash;
    }
    if suffix == [] {
      assert next == |pattern| || pattern[next] == '/';
      UnfoldStarSegment(pattern, value, pi, vi);
      if valueSlash >= 0 {
        var m := MatchInternal(pattern[next..], value[vi + valueSlash..]);
        if m {
          return true;
        }
      } else {
        b := MatchInternal(pattern[next..], "");
        return;
      }
      return false;
    }
    assert pattern[next] != '/' by {
      if nextSlash >= 0 { assert |suffix| == nextSlash; }
    }
    assert searchEnd == vi + SegmentEnd(value[vi..]);
    UnfoldStarSearch(pattern, value, pi, vi);
    b := TrySplits(pattern[next..], value, vi, searchEnd);
  }

  /** `matchInternal`: cursors `pi`, `vi` advance over literals; wildcards try split points. */
  method MatchInternal(pattern: string, value: string) returns (b: bool)
    ensures b == Matches(pattern, value)
    decreases |pattern|, 1
  {
    var pi, vi := 0, 0;
    while true
      invariant 0 <= pi <= |pattern| && 0 <= vi <= |value|
      invariant Matches(pattern[pi..], value[vi..]) == Matches(pattern, value)
      decreases |pattern| - pi
    {
      if pi >= |pattern| && vi >= |value| {
        return true;
      }
      if pi >= |pattern| {
        return false;
      }
      if pi + 1 < |pattern| && pattern[pi..pi + 2] == "**" {
        assert pattern[pi] == pattern[pi..pi + 2][0] && pattern[pi + 1] == pattern[pi..pi + 2][1];
        b := DoubleStarStep(pattern, value, pi, vi);
        return;
      }
      if pi < |pattern| && pattern[pi] == '*' {
        assert pi + 1 < |pattern| ==> pattern[pi + 1] != '*' by {
          if pi + 1 < |pattern| { assert pattern[pi..pi + 2] == [pattern[pi], pattern[pi + 1]]; }
        }
        b := StarStep(pattern, value, pi, vi);
        return;
      }
      if vi >= |value| {
        // Wildcards were handled above, so this test can never succeed here.
        var rest := pattern[pi..];
        assert rest[0] != '*';
        return rest == "*" || rest == "**" || rest == "";
      }
      UnfoldLiteral(pattern, value, pi, vi);
      if pattern[pi] != value[vi] {
        return false;
      }
      pi := pi + 1;
      vi := vi + 1;
    }
  }

  /** `Match`: the public entry point. */
  method Match(pattern: string, value: string) returns (b: bool)
    ensures b == Matches(pattern, value)
  {
    b := MatchInternal(pattern, value);
  }

  /** Some pattern of the list matches the value. */
  predicate AnyMatches(patterns: seq<string>, value: string)
  {
    exists k :: 0 <= k < |patterns| && Matches(patterns[k], value)
  }

  /** `MatchAny`: tries the patterns in order and stops at the first that matches. */
  method MatchAny(patterns: seq<string>, value: string) returns (b: bool)
    ensures b <==> exists k :: 0 <= k < |patterns| && Matches(patterns[k], value)
    ensures patterns == [] ==> !b
  {
    for k := 0 to |patterns|
      invariant forall j :: 0 <= j < k ==> !Matches(patterns[j], value)
    {
      var m := Match(patterns[k], value);
      if m {
        return true;
      }
    }
    return false;
  }

  // What the patterns mean.

  /** Literal characters heading a pattern must head the value, in order; the rest of the pattern then matches the rest of the value. */
  lemma {:induction false} LiteralPrefix(lit: string, q: string, v: string)
    requires '*' !in lit
    ensures Matches(lit + q, v) <==> |lit| <= |v| && v[..|lit|] == lit && Matches(q, v[|lit|..])
  {
    if lit == [] {
      assert lit + q == q && v[..0] == lit && v[0..] == v;
    } else {
      var p := lit + q;
      assert p[0] == lit[0] && p[1..] == lit[1..] + q;
      if v != [] {
        LiteralPrefix(lit[1..], q, v[1..]);
        if |lit| <= |v| {
          assert v[1..][|lit| - 1..] == v[|lit|..];
          assert v[..|lit|] == [v[0]] + v[1..][..|lit| - 1];
          assert lit == [lit[0]] + lit[1..];
        }
      }
    }
  }

  /** A pattern without wildcards matches exactly the value equal to it. */
  lemma LiteralMatchesIffEqual(p: string, v: string)
    requires '*' !in p
    ensures Matches(p, v) <==> p == v
  {
    LiteralPrefix(p, "", v);
    assert p + "" == p;
  }

  /** The empty pattern matches only the empty value; a pattern headed by a literal never matches the empty value. */
  lemma EmptyCases(p: string, v: string)
    ensures Matches("", v) <==> v == ""
    ensures p != "" && p[0] != '*' ==> !Matches(p, "")
  {
  }

  /** `**` as the last token matches any remainder, including one with `/` and the empty one. */
  lemma {:induction false} TrailingDoubleStar(lit: string, v: string)
    requires '*' !in lit
    ensures Matches("**", v)
    ensures Matches(lit + "**", v) <==> |lit| <= |v| && v[..|lit|] == lit
  {
    LiteralPrefix(lit, "**", v);
  }

  /** A value with a `/` before position `i` cannot have that `/` inside its first segment. */
  lemma SlashFreePrefix(v: string, i: nat)
    requires i <= |v|
    ensures '/' !in v[..i] <==> i <= SegmentEnd(v)
  {
    var e := SegmentEnd(v);
    if i <= e {
      assert forall k :: 0 <= k < i ==> v[..i][k] == v[..e][k];
    } else {
      assert v[..i][e] == '/';
    }
  }

  /** A pattern headed by a literal needs the value to start with that literal. */
  lemma HeadLiteral(q: string, w: string)
    requires q != [] && q[0] != '*' && Matches(q, w)
    ensures w != [] && w[0] == q[0]
  {
  }

  /**
   * A single `*` stands for a run of characters containing no `/`: `*` followed by a pattern
   * that does not begin with another `*` matches exactly when some slash-free prefix of the
   * value can be skipped and the rest of the pattern matches what remains.
   */
  lemma {:induction false} StarMeansSlashFreeRun(q: string, v: string)
    requires q == [] || q[0] != '*'
    ensures Matches("*" + q, v)
        <==> exists i :: 0 <= i <= |v| && '/' !in v[..i] && Matches(q, v[i..])
  {
    var p := "*" + q;
    assert p[0] == '*' && p[1..] == q;
    if q == [] || q[0] == '/' {
      var s := IndexOfSlash(v);
      if Matches(p, v) {
        if s >= 0 {
          assert '/' !in v[..s] && Matches(q, v[s..]);
        } else {
          assert v[..|v|] == v && v[|v|..] == [];
          assert '/' !in v[..|v|] && Matches(q, v[|v|..]);
        }
      }
      if i :| 0 <= i <= |v| && '/' !in v[..i] && Matches(q, v[i..]) {
        if q == [] {
          assert v[..i] == v;
          assert s < 0;
        } else {
          HeadLiteral(q, v[i..]);
          assert v[i] == '/';
          assert s >= 0 by { assert v[i] in v; }
          assert s == i;
        }
      }
    } else {
      var e := SegmentEnd(v);
      assert p[1] == q[0];
      assert Matches(p, v) == SomeSuffixMatches(q, v, e);
      if Matches(p, v) {
        var i :| 0 <= i <= e && Matches(q, v[i..]);
        SlashFreePrefix(v, i);
      }
      if i :| 0 <= i <= |v| && '/' !in v[..i] && Matches(q, v[i..]) {
        SlashFreePrefix(v, i);
        assert SomeSuffixMatches(q, v, e);
      }
    }
  }

  /** `*` alone matches exactly the values without `/`. */
  lemma StarAlone(v: string)
    ensures Matches("*", v) <==> '/' !in v
  {
    StarMeansSlashFreeRun("", v);
    assert "*" + "" == "*";
    if '/' !in v {
      assert v[..|v|] == v && v[|v|..] == [];
    }
    if i :| 0 <= i <= |v| && '/' !in v[..i] && Matches("", v[i..]) {
      assert v[..i] == v;
    }
  }

  /**
   * `**` followed by `/` skips any prefix of the value, `/` included, and the `/` itself is
   * optional, so the pair can stand for no segment at all.
   */
  lemma DoubleStarSlash(q: string, v: string)
    ensures Matches("**/" + q, v) <==> exists i :: 0 <= i <= |v| && Matches(q, v[i..])
    ensures Matches(q, v) ==> Matches("**/" + q, v)
  {
    var p := "**/" + q;
    assert p[2..] == "/" + q && p[2..][1..] == q;
    if Matches(q, v) {
      assert v[0..] == v;
    }
  }

  /** Table case: `**` then `/` may stand for no segment. */
  lemma ExampleZeroSegments(pattern: string, value: string)
    requires pattern == "myorg/**/file" && value == "myorg/file"
    ensures Matches(pattern, value)
  {
    var lit, q := pattern[..6], pattern[6..];
    assert pattern == lit + q;
    var tail := q[3..];
    assert q == "**/" + tail;
    assert value[..6] == lit && value[6..] == tail;
    LiteralPrefix(lit, q, value);
    DoubleStarSlash(tail, tail);
    LiteralMatchesIffEqual(tail, tail);
  }

  // The text after `**` and `/` need only match a tail of the value, not a whole segment:
  // with wildcard-free `lit` and `tail`, `lit**/tail` matches `lit`, then anything, then `tail`.
  lemma DoubleStarMatchesTail(lit: string, mid: string, tail: string)
    requires '*' !in lit && '*' !in tail
    ensures Matches(lit + "**/" + tail, lit + mid + tail)
  {
    var v := mid + tail;
    assert lit + "**/" + tail == lit + ("**/" + tail);
    assert lit + mid + tail == lit + v;
    assert v[|mid|..] == tail;
    LiteralMatchesIffEqual(tail, v[|mid|..]);
    DoubleStarSlash(tail, v);
    LiteralPrefix(lit, "**/" + tail, lit + v);
    assert (lit + v)[..|lit|] == lit && (lit + v)[|lit|..] == v;
  }

  // `refs/**/main` matches `refs/heads/notmain`: `main` is only a tail of the last segment.
  lemma ExampleDoubleStarMatchesTail(pattern: string, value: string)
    requires pattern == "refs/**/main" && value == "refs/heads/notmain"
    ensures Matches(pattern, value)
  {
    var lit, mid, tail := value[..5], value[5..14], value[14..];
    assert value == lit + mid + tail;
    assert pattern == lit + "**/" + tail;
    DoubleStarMatchesTail(lit, mid, tail);
  }

  /** A `*` after a literal prefix never reaches past the next `/` of the value. */
  lemma StarStaysInSegment(lit: string, rest: string)
    requires '*' !in lit && '/' in rest
    ensures !Matches(lit + "*", lit + rest)
  {
    LiteralPrefix(lit, "*", lit + rest);
    assert (lit + rest)[|lit|..] == rest;
    StarAlone(rest);
  }

  /** Table case: `*` does not reach into a deeper branch name. */
  lemma ExampleStarStopsAtSlash(pattern: string, value: string)
    requires pattern == "refs/heads/*" && value == "refs/heads/feature/new-feature"
    ensures !Matches(pattern, value)
  {
    var lit, rest := value[..11], value[11..];
    assert value == lit + rest;
    assert pattern == lit + "*";
    assert rest[7] == '/';
    StarStaysInSegment(lit, rest);
  }

  /** `*.yml` matches a file name with that extension. */
  lemma ExampleExtension(pattern: string, value: string)
    requires pattern == "*.yml" && value == "ci.yml"
    ensures Matches(pattern, value)
  {
    var ext := pattern[1..];
    assert pattern == "*" + ext;
    assert value[2..] == ext && '/' !in value[..2];
    LiteralMatchesIffEqual(ext, value[2..]);
    StarMeansSlashFreeRun(ext, value);
  }

  /** A literal directory followed by `*.yml`. */
  lemma ExampleWorkflowFile(pattern: string, value: string)
    requires pattern == "/workflows/*.yml" && value == "/workflows/ci.yml"
    ensures Matches(pattern, value)
  {
    var lit, tail := pattern[..11], pattern[11..];
    assert pattern == lit + tail;
    ExampleExtension(tail, value[11..]);
    assert value[..11] == lit;
    LiteralPrefix(lit, tail, value);
  }

  /** Table case: `*` spans one segment in two places of a workflow path. */
  lemma ExampleTwoStars(pattern: string, value: string)
    requires pattern == "*/workflows/*.yml" && value == ".github/workflows/ci.yml"
    ensures Matches(pattern, value)
  {
    var q := pattern[1..];
    assert pattern == "*" + q;
    ExampleWorkflowFile(q, value[7..]);
    assert '/' !in value[..7];
    StarMeansSlashFreeRun(q, value);
  }
}
