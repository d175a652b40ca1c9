/** Writing into the middle of a buffer. */
module Buffers {
  function Spliced<T>(s: seq<T>, p: nat, e: seq<T>): (r: seq<T>)
    requires p + |e| <= |s|
    ensures |r| == |s|
  {
    s[..p] + e + s[p + |e|..]
  }

  lemma SpliceTwice<T>(s: seq<T>, p: nat, a: seq<T>, b: seq<T>)
    requires p + |a| + |b| <= |s|
    ensures Spliced(Spliced(s, p, a), p + |a|, b) == Spliced(s, p, a + b)
  {
  }

  lemma SpliceBefore<T>(s: seq<T>, p: nat, a: seq<T>, b: seq<T>)
    requires p + |a| + |b| <= |s|
    ensures Spliced(Spliced(s, p + |a|, b), p, a) == Spliced(s, p, a + b)
  {
  }

  lemma SpliceNothing<T>(s: seq<T>, p: nat)
    requires p <= |s|
    ensures Spliced(s, p, []) == s
  {
  }

  lemma SpliceBelow<T>(s: seq<T>, p: nat, e: seq<T>, below: nat)
    requires below <= p && p + |e| <= |s|
    ensures Spliced(s, p, e)[..below] == s[..below]
  {
  }

  lemma SplicePrefix<T>(s: seq<T>, p: nat, e: seq<T>)
    requires p + |e| <= |s|
    ensures Spliced(s, p, e)[..p] == s[..p] && Spliced(s, p, e)[..p + |e|] == s[..p] + e
    ensures Spliced(s, p, e) == Spliced(s, 0, s[..p] + e)
  {
  }

  /** memcpy */
  method Copy<T>(buf: array<T>, p: nat, src: seq<T>)
    requires p + |src| <= buf.Length
    modifies buf
    ensures buf[..] == Spliced(old(buf[..]), p, src)
  {
    for i := 0 to |src|
      invariant forall k :: 0 <= k < buf.Length ==> buf[k] == if p <= k < p + i then src[k - p] else old(buf[k])
    {
      buf[p + i] := src[i];
    }
  }
}
