/** String primitives shared by both halves of the system: prefix tests,
    substring search, splitting and joining on a separator, and ASCII
    lower-casing. `Split` follows Python's `str.split(sep)` and JavaScript's
    `String.prototype.split(sep)`, which agree for a non-empty separator:
    scan left to right, cut at each non-overlapping occurrence. */
module Text {
  import opened Prelude

  predicate StartsWith(s: string, prefix: string) {
    |prefix| <= |s| && s[..|prefix|] == prefix
  }

  /** `sep` occurs in `s` starting at index `i`. */
  predicate OccursAt(s: string, sep: string, i: nat) {
    i + |sep| <= |s| && s[i..i + |sep|] == sep
  }

  /** `sep` occurs somewhere in `s` (Python's `sep in s`). */
  predicate Contains(s: string, sep: string) {
    exists i: nat | i < |s| :: OccursAt(s, sep, i)
  }

  /** The first occurrence of `sep` in `s` at or after `from`. */
  function FindFrom(s: string, sep: string, from: nat): (r: Option<nat>)
    requires |sep| > 0
    ensures r.Some? ==> from <= r.value && OccursAt(s, sep, r.value)
    ensures r.Some? ==> forall j: nat :: from <= j < r.value ==> !OccursAt(s, sep, j)
    ensures r.None? ==> forall j: nat :: from <= j ==> !OccursAt(s, sep, j)
    decreases |s| - from
  {
    if from + |sep| > |s| then None
    else if OccursAt(s, sep, from) then Some(from)
    else FindFrom(s, sep, from + 1)
  }

  /** Cut `s` at every non-overlapping occurrence of `sep`, left to right. */
  function Split(s: string, sep: string): (parts: seq<string>)
    requires |sep| > 0
    ensures |parts| >= 1
    decreases |s|
  {
    match FindFrom(s, sep, 0)
    case None => [s]
    case Some(i) => [s[..i]] + Split(s[i + |sep|..], sep)
  }

  /** `sep.join(parts)` / `parts.join(sep)`. */
  function Join(parts: seq<string>, sep: string): string
    decreases |parts|
  {
    if |parts| == 0 then ""
    else if |parts| == 1 then parts[0]
    else parts[0] + sep + Join(parts[1..], sep)
  }

  function Last<T>(xs: seq<T>): T
    requires |xs| > 0
  {
    xs[|xs| - 1]
  }

  function LowerChar(c: char): char {
    if 'A' <= c <= 'Z' then (c as int + 32) as char else c
  }

  /** Lower-casing, restricted to the ASCII letters. */
  function Lower(s: string): (r: string)
    ensures |r| == |s|
    ensures forall i :: 0 <= i < |s| ==> r[i] == LowerChar(s[i])
  {
    seq(|s|, i requires 0 <= i < |s| => LowerChar(s[i]))
  }

  lemma JoinCons(p: string, ps: seq<string>, sep: string)
    requires |ps| >= 1
    ensures Join([p] + ps, sep) == p + sep + Join(ps, sep)
  {
    assert ([p] + ps)[1..] == ps;
  }

  /** Joining the pieces of a split restores the original string. */
  lemma {:induction false} JoinSplit(s: string, sep: string)
    requires |sep| > 0
    ensures Join(Split(s, sep), sep) == s
    decreases |s|
  {
    match FindFrom(s, sep, 0)
    case None =>
    case Some(i) =>
      var rest := s[i + |sep|..];
      var parts := Split(rest, sep);
      assert Split(s, sep) == [s[..i]] + parts;
      JoinSplit(rest, sep);
      JoinCons(s[..i], parts, sep);
      assert s == s[..i] + sep + rest by {
        assert s[i..i + |sep|] == sep;
        assert s == s[..i] + s[i..i + |sep|] + rest;
      }
  }

  /** No piece of a split contains the separator. */
  lemma {:induction false} SplitPiecesAreFree(s: string, sep: string)
    requires |sep| > 0
    ensures forall k :: 0 <= k < |Split(s, sep)| ==> !Contains(Split(s, sep)[k], sep)
    decreases |s|
  {
    match FindFrom(s, sep, 0)
    case None =>
      assert Split(s, sep) == [s];
    case Some(i) =>
      var rest := s[i + |sep|..];
      SplitPiecesAreFree(rest, sep);
      assert Split(s, sep) == [s[..i]] + Split(rest, sep);
      var head := s[..i];
      forall j: nat | j < |head|
        ensures !OccursAt(head, sep, j)
      {
        assert !OccursAt(s, sep, j);
        if j + |sep| <= |head| {
          assert head[j..j + |sep|] == s[j..j + |sep|];
        }
      }
  }

  /** A single-character separator that no line contains is a faithful line
      terminator: splitting the joined text gives the lines back. */
  lemma {:induction false} SplitJoin(lines: seq<string>, c: char)
    requires |lines| >= 1
    requires forall k :: 0 <= k < |lines| ==> c !in lines[k]
    ensures Split(Join(lines, [c]), [c]) == lines
    decreases |lines|
  {
    var s := Join(lines, [c]);
    var head := lines[0];
    forall j: nat | j < |head|
      ensures !OccursAt(s, [c], j)
    {
      if |lines| > 1 {
        assert s == head + [c] + Join(lines[1..], [c]);
      }
      assert s[j] == head[j];
    }
    if |lines| == 1 {
      assert s == head;
    } else {
      var tail := Join(lines[1..], [c]);
      assert s == head + [c] + tail;
      assert OccursAt(s, [c], |head|);
      assert FindFrom(s, [c], 0) == Some(|head|);
      assert s[..|head|] == head;
      assert s[|head| + 1..] == tail;
      assert Split(s, [c]) == [head] + Split(tail, [c]);
      SplitJoin(lines[1..], c);
      assert lines == [head] + lines[1..];
    }
  }
}
