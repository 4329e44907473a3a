/**
 * The mailer as the handlers use it. A send either delivers or throws; which
 * one is the parameter `delivers`. Two calling patterns occur: each send in its
 * own try/catch that only logs (every notice is attempted), and a plain
 * sequence of awaited sends (the first failure ends the loop and the request).
 */
module Notify {

  /** One e-mail: its recipients and the id of the requirement or candidate it announces. */
  datatype Notice = Notice(to: seq<string>, about: string)

  /** One notice per recipient, in list order, all about the same id. */
  function NoticesTo(recipients: seq<string>, about: string): (ns: seq<Notice>)
    ensures |ns| == |recipients|
    ensures forall i :: 0 <= i < |ns| ==> ns[i] == Notice([recipients[i]], about)
  {
    seq(|recipients|, i requires 0 <= i < |recipients| => Notice([recipients[i]], about))
  }

  predicate AllDelivered(ns: seq<Notice>, delivers: Notice -> bool) {
    forall i :: 0 <= i < |ns| ==> delivers(ns[i])
  }

  /** The notices that fail, in the order they were attempted. */
  function Undelivered(ns: seq<Notice>, delivers: Notice -> bool): (r: seq<Notice>)
    ensures |r| <= |ns|
    ensures r == [] <==> AllDelivered(ns, delivers)
  {
    if ns == [] then []
    else
      var rest := Undelivered(ns[1..], delivers);
      assert AllDelivered(ns, delivers) <==> delivers(ns[0]) && AllDelivered(ns[1..], delivers) by {
        if delivers(ns[0]) && AllDelivered(ns[1..], delivers) {
          forall i | 0 <= i < |ns| ensures delivers(ns[i]) {
            if i > 0 { assert ns[i] == ns[1..][i - 1]; }
          }
        }
      }
      assert ns == [ns[0]] + ns[1..];
      (if delivers(ns[0]) then [] else [ns[0]]) + rest
  }

  lemma {:induction false} UndeliveredAppend(a: seq<Notice>, b: seq<Notice>, delivers: Notice -> bool)
    ensures Undelivered(a + b, delivers) == Undelivered(a, delivers) + Undelivered(b, delivers)
  {
    if a == [] {
      assert a + b == b;
    } else {
      assert (a + b)[0] == a[0];
      assert (a + b)[1..] == a[1..] + b;
      UndeliveredAppend(a[1..], b, delivers);
    }
  }

  /**
   * The notices a plain sequence of awaited sends attempts: all of them when
   * every one is delivered, otherwise those up to and including the first failure.
   */
  function AttemptedUntilFailure(ns: seq<Notice>, delivers: Notice -> bool): (r: seq<Notice>)
    ensures |r| <= |ns| && r == ns[..|r|]
    ensures AllDelivered(ns, delivers) ==> r == ns
    ensures !AllDelivered(ns, delivers) ==>
      |r| > 0 && !delivers(r[|r| - 1]) && AllDelivered(r[..|r| - 1], delivers)
  {
    if ns == [] then []
    else if !delivers(ns[0]) then [ns[0]]
    else
      var rest := AttemptedUntilFailure(ns[1..], delivers);
      assert AllDelivered(ns, delivers) ==> AllDelivered(ns[1..], delivers) by {
        if AllDelivered(ns, delivers) {
          forall i | 0 <= i < |ns[1..]| ensures delivers(ns[1..][i]) {
            assert ns[1..][i] == ns[i + 1];
          }
        }
      }
      assert !AllDelivered(ns, delivers) ==> !AllDelivered(ns[1..], delivers) by {
        if !AllDelivered(ns, delivers) {
          var i :| 0 <= i < |ns| && !delivers(ns[i]);
          assert i > 0 && ns[1..][i - 1] == ns[i];
        }
      }
      var r := [ns[0]] + rest;
      assert rest != [] ==> r[..|r| - 1] == [ns[0]] + rest[..|rest| - 1];
      r
  }

  /** Every notice is sent in its own try/catch: failures are logged and the loop goes on. */
  method SendEachLoggingFailures(ns: seq<Notice>, delivers: Notice -> bool) returns (undelivered: seq<Notice>)
    ensures undelivered == Undelivered(ns, delivers)
  {
    undelivered := [];
    var i := 0;
    while i < |ns|
      invariant 0 <= i <= |ns|
      invariant undelivered == Undelivered(ns[..i], delivers)
    {
      assert ns[..i + 1] == ns[..i] + [ns[i]];
      UndeliveredAppend(ns[..i], [ns[i]], delivers);
      if !delivers(ns[i]) {
        undelivered := undelivered + [ns[i]];
      }
      i := i + 1;
    }
    assert ns[..i] == ns;
  }

  /** The awaited sends stop right after the first notice that fails. */
  lemma {:induction false} AttemptedStopsAtFirstFailure(ns: seq<Notice>, k: nat, delivers: Notice -> bool)
    requires k < |ns| && !delivers(ns[k])
    requires forall j :: 0 <= j < k ==> delivers(ns[j])
    ensures AttemptedUntilFailure(ns, delivers) == ns[..k + 1]
  {
    if k > 0 {
      AttemptedStopsAtFirstFailure(ns[1..], k - 1, delivers);
      assert ns[..k + 1] == [ns[0]] + ns[1..][..k];
    }
  }

  /** Awaited sends with no catch of their own: the first failure stops the loop and fails the request. */
  method SendUntilFailure(ns: seq<Notice>, delivers: Notice -> bool) returns (attempted: seq<Notice>, ok: bool)
    ensures attempted == AttemptedUntilFailure(ns, delivers)
    ensures ok <==> AllDelivered(ns, delivers)
  {
    attempted := [];
    ok := true;
    var i := 0;
    while i < |ns| && ok
      invariant 0 <= i <= |ns|
      invariant attempted == ns[..i]
      invariant forall j :: 0 <= j < i - 1 ==> delivers(ns[j])
      invariant ok ==> i == 0 || delivers(ns[i - 1])
      invariant !ok ==> i > 0 && !delivers(ns[i - 1])
    {
      attempted := attempted + [ns[i]];
      ok := delivers(ns[i]);
      i := i + 1;
    }
    if ok {
      assert ns[..i] == ns;
    } else {
      AttemptedStopsAtFirstFailure(ns, i - 1, delivers);
    }
  }
}
