/** Small string helpers shared by the text handler, the renderers and the
    readers that take rendered texts apart. */
module Strings {
  import opened Options

  /** The part of `s` before the first `delim`, or all of `s` when it has none. */
  function UpTo(s: string, delim: char): (r: string)
    ensures r <= s
    ensures delim !in r
    ensures |r| < |s| ==> s[|r|] == delim
  {
    if |s| == 0 || s[0] == delim then "" else [s[0]] + UpTo(s[1..], delim)
  }

  /** `UpTo` is the only prefix without `delim` that ends at `delim` or at the end of `s`. */
  lemma {:induction false} UpToUnique(s: string, delim: char, r: string)
    requires r <= s
    requires delim !in r
    requires |r| < |s| ==> s[|r|] == delim
    ensures UpTo(s, delim) == r
  {
    if |s| == 0 || s[0] == delim {
      assert |r| == 0;
    } else {
      assert r[0] == s[0];
      UpToUnique(s[1..], delim, r[1..]);
      assert r == [s[0]] + r[1..];
    }
  }

  /** The pieces of `s` between occurrences of `delim`, as C#'s `s.Split(delim)`:
      at least one piece, none holding `delim`, and joined back they give `s`. */
  function Split(s: string, delim: char): (parts: seq<string>)
    ensures |parts| >= 1
    ensures forall i :: 0 <= i < |parts| ==> delim !in parts[i]
    ensures parts[0] == UpTo(s, delim)
    ensures Join(parts, delim) == s
    decreases |s|
  {
    var first := UpTo(s, delim);
    if |first| == |s| then
      assert first == s;
      [first]
    else
      var rest := Split(s[|first| + 1..], delim);
      assert s == first + [delim] + s[|first| + 1..];
      [first] + rest
  }

  /** The pieces joined with `delim` between neighbours. */
  function Join(parts: seq<string>, delim: char): string
    requires |parts| >= 1
  {
    if |parts| == 1 then parts[0] else parts[0] + [delim] + Join(parts[1..], delim)
  }

  /** Splitting undoes joining pieces that do not hold the delimiter. */
  lemma {:induction false} SplitJoin(parts: seq<string>, delim: char)
    requires |parts| >= 1
    requires forall i :: 0 <= i < |parts| ==> delim !in parts[i]
    ensures Split(Join(parts, delim), delim) == parts
  {
    var s := Join(parts, delim);
    if |parts| == 1 {
      UpToUnique(s, delim, parts[0]);
    } else {
      var rest := Join(parts[1..], delim);
      assert s == parts[0] + [delim] + rest;
      assert s[|parts[0]|] == delim;
      UpToUnique(s, delim, parts[0]);
      assert s[|parts[0]| + 1..] == rest;
      assert Split(s, delim) == [parts[0]] + Split(rest, delim);
      SplitJoin(parts[1..], delim);
      assert parts == [parts[0]] + parts[1..];
    }
  }

  /** What lies between `prefix` and `suffix` when `s` has both. */
  function Between(s: string, prefix: string, suffix: string): (r: Option<string>)
    ensures r.Some? ==> s == prefix + r.value + suffix
  {
    if |prefix| + |suffix| <= |s| && prefix <= s && s[|s| - |suffix|..] == suffix
    then
      var inner := s[|prefix|..|s| - |suffix|];
      assert s == s[..|prefix|] + inner + s[|s| - |suffix|..];
      Some(inner)
    else None
  }

  /** `Between` recovers what was framed. */
  lemma BetweenFramed(prefix: string, inner: string, suffix: string)
    ensures Between(prefix + inner + suffix, prefix, suffix) == Some(inner)
  {
    var s := prefix + inner + suffix;
    assert s[|s| - |suffix|..] == suffix;
    assert s[|prefix|..|s| - |suffix|] == inner;
  }
}
