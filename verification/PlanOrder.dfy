/** Lexicographic comparison, the order Rust gives tuples, strings and integers. */
module PlanOrder {
  datatype Ordering = Less | Equal | Greater

  function Flip(o: Ordering): Ordering {
    match o
    case Less => Greater
    case Equal => Equal
    case Greater => Less
  }

  function CompareInts(a: seq<int>, b: seq<int>): Ordering {
    if |a| == 0 || |b| == 0 then
      if |b| > 0 then Less else if |a| > 0 then Greater else Equal
    else if a[0] < b[0] then Less
    else if a[0] > b[0] then Greater
    else CompareInts(a[1..], b[1..])
  }

  /** Key after key; keys of different lengths are compared like strings. */
  function Compare(a: seq<seq<int>>, b: seq<seq<int>>): Ordering {
    if |a| == 0 || |b| == 0 then
      if |b| > 0 then Less else if |a| > 0 then Greater else Equal
    else if CompareInts(a[0], b[0]) == Equal then Compare(a[1..], b[1..])
    else CompareInts(a[0], b[0])
  }

  lemma {:induction false} IntsFlip(a: seq<int>, b: seq<int>)
    ensures CompareInts(b, a) == Flip(CompareInts(a, b))
  {
    if |a| > 0 && |b| > 0 {
      IntsFlip(a[1..], b[1..]);
    }
  }

  lemma {:induction false} IntsEqual(a: seq<int>, b: seq<int>)
    ensures CompareInts(a, b) == Equal <==> a == b
  {
    if |a| > 0 && |b| > 0 {
      IntsEqual(a[1..], b[1..]);
      assert a == [a[0]] + a[1..] && b == [b[0]] + b[1..];
    }
  }

  lemma {:induction false} IntsTransitive(a: seq<int>, b: seq<int>, c: seq<int>)
    requires CompareInts(a, b) != Greater && CompareInts(b, c) != Greater
    ensures CompareInts(a, c) != Greater
    ensures CompareInts(a, b) == Less || CompareInts(b, c) == Less ==> CompareInts(a, c) == Less
  {
    if |a| > 0 && |b| > 0 && |c| > 0 && a[0] == b[0] == c[0] {
      IntsTransitive(a[1..], b[1..], c[1..]);
    }
  }

  lemma {:induction false} CompareFlip(a: seq<seq<int>>, b: seq<seq<int>>)
    ensures Compare(b, a) == Flip(Compare(a, b))
  {
    if |a| > 0 && |b| > 0 {
      IntsFlip(a[0], b[0]);
      CompareFlip(a[1..], b[1..]);
    }
  }

  lemma {:induction false} CompareEqual(a: seq<seq<int>>, b: seq<seq<int>>)
    ensures Compare(a, b) == Equal <==> a == b
  {
    if |a| > 0 && |b| > 0 {
      IntsEqual(a[0], b[0]);
      CompareEqual(a[1..], b[1..]);
      assert a == [a[0]] + a[1..] && b == [b[0]] + b[1..];
    }
  }

  lemma {:induction false} CompareTransitive(a: seq<seq<int>>, b: seq<seq<int>>, c: seq<seq<int>>)
    requires Compare(a, b) != Greater && Compare(b, c) != Greater
    ensures Compare(a, c) != Greater
    ensures Compare(a, b) == Less || Compare(b, c) == Less ==> Compare(a, c) == Less
  {
    if |a| > 0 && |b| > 0 && |c| > 0 {
      IntsTransitive(a[0], b[0], c[0]);
      IntsEqual(a[0], b[0]);
      IntsEqual(b[0], c[0]);
      IntsEqual(a[0], c[0]);
      if a[0] == b[0] && b[0] == c[0] {
        CompareTransitive(a[1..], b[1..], c[1..]);
      }
    }
  }

  /** The first key that differs decides. */
  lemma {:induction false} FirstDifference(a: seq<seq<int>>, b: seq<seq<int>>, k: nat)
    requires k < |a| && k < |b| && a[..k] == b[..k]
    ensures CompareInts(a[k], b[k]) != Equal ==> Compare(a, b) == CompareInts(a[k], b[k])
  {
    if k > 0 {
      assert a[0] == a[..k][0] && b[0] == b[..k][0];
      IntsEqual(a[0], b[0]);
      assert a[1..][..k - 1] == a[..k][1..] && b[1..][..k - 1] == b[..k][1..];
      FirstDifference(a[1..], b[1..], k - 1);
    }
  }

  /** Strings compare by code point. */
  function Codes(s: string): (c: seq<int>)
    ensures |c| == |s|
  {
    seq(|s|, i requires 0 <= i < |s| => s[i] as int)
  }

  lemma CodesInjective(a: string, b: string)
    requires Codes(a) == Codes(b)
    ensures a == b
  {
    assert |a| == |Codes(a)| == |b|;
    forall i | 0 <= i < |a|
      ensures a[i] == b[i]
    {
      assert Codes(a)[i] == Codes(b)[i];
    }
  }
}
