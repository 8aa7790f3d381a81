/**
  The segment view of a SURF path: the stored path string split on '/'.
  A leading empty segment marks an absolute path.
*/
module SurfPath {

  /** The number of '/' characters in `s`. */
  function Slashes(s: string): nat {
    if |s| == 0 then 0 else (if s[0] == '/' then 1 else 0) + Slashes(s[1..])
  }

  /** Splits `s` at every '/'; a string with k slashes has k + 1 segments, none containing '/'. */
  function Split(s: string): (segs: seq<string>)
    ensures |segs| == Slashes(s) + 1
    ensures forall i :: 0 <= i < |segs| ==> '/' !in segs[i]
  {
    if |s| == 0 then [""]
    else if s[0] == '/' then [""] + Split(s[1..])
    else
      var t := Split(s[1..]);
      assert '/' !in [s[0]] + t[0];
      [[s[0]] + t[0]] + t[1..]
  }

  /** Joins segments with '/' between consecutive ones. */
  function Join(segs: seq<string>): string
    requires |segs| > 0
  {
    if |segs| == 1 then segs[0] else segs[0] + "/" + Join(segs[1..])
  }

  /**
    The segments of a stored path: the empty path has none, any other path
    has one more segment than it has slashes.
  */
  function Segments(p: string): (segs: seq<string>)
    ensures |segs| == if p == "" then 0 else Slashes(p) + 1
  {
    if p == "" then [] else Split(p)
  }

  lemma {:induction false} JoinPrepend(c: char, segs: seq<string>)
    requires |segs| > 0
    ensures Join([[c] + segs[0]] + segs[1..]) == [c] + Join(segs)
  {
    var r := [[c] + segs[0]] + segs[1..];
    if |segs| > 1 {
      assert r[1..] == segs[1..];
    }
  }

  /** Joining the segments of a string gives the string back. */
  lemma {:induction false} JoinSplit(s: string)
    ensures Join(Split(s)) == s
  {
    if |s| > 0 {
      JoinSplit(s[1..]);
      var t := Split(s[1..]);
      if s[0] == '/' {
        assert ([""] + t)[1..] == t;
      } else {
        JoinPrepend(s[0], t);
      }
      assert s == [s[0]] + s[1..];
    }
  }

  /** A slash-free string is a single segment, and splitting past it continues after the slash. */
  lemma {:induction false} SplitSegmentThen(a: string, rest: string)
    requires '/' !in a
    ensures Split(a) == [a]
    ensures Split(a + "/" + rest) == [a] + Split(rest)
  {
    if |a| > 0 {
      assert a[1..] + "/" + rest == (a + "/" + rest)[1..];
      SplitSegmentThen(a[1..], rest);
      assert [a[0]] + a[1..] == a;
    } else {
      assert a + "/" + rest == "/" + rest;
      assert ("/" + rest)[1..] == rest;
    }
  }

  /** Splitting joined slash-free segments gives the segments back. */
  lemma {:induction false} SplitJoin(segs: seq<string>)
    requires |segs| > 0
    requires forall i :: 0 <= i < |segs| ==> '/' !in segs[i]
    ensures Split(Join(segs)) == segs
  {
    SplitSegmentThen(segs[0], if |segs| > 1 then Join(segs[1..]) else "");
    if |segs| > 1 {
      SplitJoin(segs[1..]);
      assert segs == [segs[0]] + segs[1..];
    }
  }

  /** A non-empty path is absolute (starts with '/') exactly when its first segment is empty. */
  lemma AbsoluteIffEmptyFirstSegment(p: string)
    requires p != ""
    ensures p[0] == '/' <==> Segments(p)[0] == ""
  {
  }
}
