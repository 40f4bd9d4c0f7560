/** The first occurrence of a marker in a byte buffer, and how it moves when the buffer changes. */
module Search {
  import opened Bytes

  predicate At(s: seq<byte>, mark: seq<byte>, i: int)
  {
    0 <= i <= |s| - |mark| && s[i..i + |mark|] == mark
  }

  predicate NoneBefore(s: seq<byte>, mark: seq<byte>, k: int)
  {
    forall i | 0 <= i < k :: !At(s, mark, i)
  }

  /** The lowest index of `mark` in `s`, or -1, like `bytearray.find`. */
  function Find(s: seq<byte>, mark: seq<byte>): (r: int)
    ensures -1 <= r <= |s|
    ensures r >= 0 ==> At(s, mark, r) && NoneBefore(s, mark, r)
    ensures r < 0 ==> NoneBefore(s, mark, |s| + 1)
  {
    FindFrom(s, mark, 0)
  }

  function FindFrom(s: seq<byte>, mark: seq<byte>, from: nat): (r: int)
    requires from <= |s| + 1 && NoneBefore(s, mark, from)
    ensures -1 <= r <= |s|
    ensures r >= 0 ==> At(s, mark, r) && NoneBefore(s, mark, r)
    ensures r < 0 ==> NoneBefore(s, mark, |s| + 1)
    decreases |s| + 1 - from
  {
    if from > |s| then -1
    else if At(s, mark, from) then from
    else FindFrom(s, mark, from + 1)
  }

  lemma FindAligns(s: seq<byte>, mark: seq<byte>)
    requires Find(s, mark) >= 0
    ensures mark <= s[Find(s, mark)..]
  {
    assert At(s, mark, Find(s, mark));
  }

  lemma FindIs(s: seq<byte>, mark: seq<byte>, k: nat)
    requires At(s, mark, k) && NoneBefore(s, mark, k)
    ensures Find(s, mark) == k
  {}

  lemma StartsAt(b: seq<byte>, mark: seq<byte>)
    requires mark <= b
    ensures Find(b, mark) == 0
  {
    assert b[0..|mark|] == mark;
    FindIs(b, mark, 0);
  }

  lemma FindNone(s: seq<byte>, mark: seq<byte>)
    requires NoneBefore(s, mark, |s| + 1)
    ensures Find(s, mark) == -1
  {}

  /** An occurrence inside `s` stays the first one when bytes follow. */
  lemma FindExtend(s: seq<byte>, t: seq<byte>, mark: seq<byte>)
    requires Find(s, mark) >= 0
    ensures Find(s + t, mark) == Find(s, mark)
  {
    var k := Find(s, mark);
    forall i | 0 <= i <= k
      ensures At(s + t, mark, i) == At(s, mark, i)
    {
      assert (s + t)[i..i + |mark|] == s[i..i + |mark|];
    }
    FindIs(s + t, mark, k);
  }

  /** Bytes before the first occurrence can be dropped. */
  lemma FindDrop(s: seq<byte>, k: nat, mark: seq<byte>)
    requires k <= |s| && NoneBefore(s, mark, k)
    ensures Find(s, mark) == if Find(s[k..], mark) < 0 then -1 else k + Find(s[k..], mark)
  {
    forall i | k <= i <= |s|
      ensures At(s, mark, i) == At(s[k..], mark, i - k)
    {
      if i + |mark| <= |s| {
        assert s[k..][i - k..i - k + |mark|] == s[i..i + |mark|];
      }
    }
    var j := Find(s[k..], mark);
    if j >= 0 {
      FindIs(s, mark, k + j);
    } else {
      FindNone(s, mark);
    }
  }

  /** Without an occurrence, only the last |mark| - 1 bytes can take part in a later one. */
  lemma NoneStraddles(s: seq<byte>, t: seq<byte>, mark: seq<byte>)
    requires |mark| > 0 && Find(s, mark) < 0
    ensures NoneBefore(s + t, mark, |s| - |mark| + 1)
  {
    forall i | 0 <= i < |s| - |mark| + 1
      ensures !At(s + t, mark, i)
    {
      assert (s + t)[i..i + |mark|] == s[i..i + |mark|];
      assert !At(s, mark, i);
    }
  }

  /** No proper suffix of `mark` is also a prefix of it. */
  predicate Borderless(mark: seq<byte>)
  {
    forall d | 0 < d < |mark| :: mark[d..] != mark[..|mark| - d]
  }

  lemma Straddle(noise: seq<byte>, t: seq<byte>, mark: seq<byte>, i: nat)
    requires i < |noise| < i + |mark| && mark <= t && At(noise + t, mark, i)
    ensures var d := |noise| - i; mark[d..] == mark[..|mark| - d]
  {
    var s, d := noise + t, |noise| - i;
    assert mark[d..] == s[i..i + |mark|][d..] == s[|noise|..i + |mark|] == t[..|mark| - d];
  }

  /** Noise without the mark never hides the mark that follows it. */
  lemma FindAfterNoise(noise: seq<byte>, t: seq<byte>, mark: seq<byte>)
    requires |mark| > 0 && Borderless(mark)
    requires Find(noise, mark) < 0 && mark <= t
    ensures Find(noise + t, mark) == |noise|
  {
    var s := noise + t;
    NoneStraddles(noise, t, mark);
    forall i | 0 <= i < |noise|
      ensures !At(s, mark, i)
    {
      if At(s, mark, i) {
        Straddle(noise, t, mark, i);
        assert false;
      }
    }
    assert s[|noise|..|noise| + |mark|] == t[..|mark|];
    FindIs(s, mark, |noise|);
  }
}
