/** The ordered-fallback pattern shared by the dividend, P/E and EPS-growth resolvers: a priority
    list of attempts, the first one that yields a value wins. */
module Fallback {
  import opened Wrappers

  /** The value of the first attempt that succeeded, if any. */
  function FirstSome(attempts: seq<Option<real>>): (r: Option<real>)
    ensures r.None? <==> forall i :: 0 <= i < |attempts| ==> attempts[i].None?
  {
    if |attempts| == 0 then None
    else if attempts[0].Some? then attempts[0]
    else FirstSome(attempts[1..])
  }

  /** The attempt that wins is the first successful one: every attempt before it failed. */
  lemma {:induction false} FirstSomeIsFirst(attempts: seq<Option<real>>)
    ensures FirstSome(attempts).Some? ==>
      exists k :: 0 <= k < |attempts| && attempts[k] == FirstSome(attempts) &&
        forall j :: 0 <= j < k ==> attempts[j].None?
  {
    if |attempts| > 0 && attempts[0].None? {
      FirstSomeIsFirst(attempts[1..]);
      if FirstSome(attempts).Some? {
        var k :| 0 <= k < |attempts[1..]| && attempts[1..][k] == FirstSome(attempts[1..]) &&
          forall j :: 0 <= j < k ==> attempts[1..][j].None?;
        assert attempts[k + 1] == FirstSome(attempts);
        assert forall j :: 0 <= j < k + 1 ==> attempts[j].None? by {
          forall j | 0 <= j < k + 1 ensures attempts[j].None? {
            if j > 0 { assert attempts[j] == attempts[1..][j - 1]; }
          }
        }
      }
    }
  }

  /** Every attempt before the `k`-th failed. */
  predicate FailedBefore(attempts: seq<Option<real>>, k: nat) {
    forall j :: 0 <= j < k && j < |attempts| ==> attempts[j].None?
  }

  /** Conversely, an attempt preceded only by failures is the one that wins. */
  lemma {:induction false} FirstSomeAt(attempts: seq<Option<real>>, k: nat)
    requires k < |attempts| && attempts[k].Some?
    requires FailedBefore(attempts, k)
    ensures FirstSome(attempts) == attempts[k]
  {
    if k > 0 {
      FirstSomeAt(attempts[1..], k - 1);
    }
  }

  /** A list of three attempts, unfolded. */
  lemma FirstSomeOfThree(attempts: seq<Option<real>>)
    requires |attempts| == 3
    ensures FirstSome(attempts) ==
      if attempts[0].Some? then attempts[0] else if attempts[1].Some? then attempts[1] else attempts[2]
  {
    var t1, t2 := attempts[1..], attempts[1..][1..];
    assert t2 == [attempts[2]] && t2[1..] == [];
    assert FirstSome(t2) == attempts[2];
    assert FirstSome(t1) == if attempts[1].Some? then attempts[1] else FirstSome(t2);
  }

  /** A list of four attempts, unfolded. */
  lemma FirstSomeOfFour(attempts: seq<Option<real>>)
    requires |attempts| == 4
    ensures FirstSome(attempts) ==
      if attempts[0].Some? then attempts[0] else if attempts[1].Some? then attempts[1]
      else if attempts[2].Some? then attempts[2] else attempts[3]
  {
    FirstSomeOfThree(attempts[1..]);
  }
}
