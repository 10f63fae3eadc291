/** What a sender can rely on when it hands messages to the ACL layer (acl.c:360-384, hci_dev.c:175-213): every
    packet that is offered to the backend uses up a credit, and credits come back only between two calls. */
module AclCredits {
  /** One message is handed over with `before` credits and `after` are left. The result is not 0 only if a packet
      was offered, and 0 only if something waits, which it does for want of credits. */
  predicate IsSend(before: nat, rc: int, after: nat) {
    after <= before && if rc == 0 then after == 0 else after < before
  }

  /** Messages handed over one after the other, with nothing between them that brings credits back. */
  ghost predicate AreSends(credits: nat -> nat, rcs: nat -> int) {
    forall n: nat :: IsSend(credits(n), rcs(n), credits(n + 1))
  }

  /** Among more messages than there are credits one is answered with 0. */
  lemma {:induction false} SomeSendReturnsZero(credits: nat -> nat, rcs: nat -> int, first: nat)
    returns (n: nat)
    requires AreSends(credits, rcs)
    ensures first <= n <= first + credits(first) && rcs(n) == 0
    decreases credits(first)
  {
    n := first;
    assert IsSend(credits(first), rcs(first), credits(first + 1));
    if rcs(first) != 0 {
      n := SomeSendReturnsZero(credits, rcs, first + 1);
    }
  }

  /** Once a send has returned 0, all that follow do. */
  lemma {:induction false} ThenAllReturnZero(credits: nat -> nat, rcs: nat -> int, first: nat, n: nat)
    requires AreSends(credits, rcs) && rcs(first) == 0 && first <= n
    ensures rcs(n) == 0 && credits(n + 1) == 0
    decreases n - first
  {
    assert IsSend(credits(n), rcs(n), credits(n + 1));
    if n > first {
      ThenAllReturnZero(credits, rcs, first, n - 1);
    }
  }

  /** What the ACL layer would answer to one message, and how many credits it would use up, if there are any. */
  datatype Answer = Answer(rc: int, used: nat)

  function RcOf(a: Answer, credits: nat): int {
    if credits == 0 then 0 else a.rc
  }

  function Left(a: Answer, credits: nat): nat {
    if RcOf(a, credits) == 0 then 0
    else if a.used == 0 then credits - 1
    else if a.used >= credits then 0
    else credits - a.used
  }

  /** These answers stand for all sends there can be, and for nothing else. */
  lemma EverySend(before: nat, rc: int, after: nat)
    ensures IsSend(before, rc, after) <==> exists a :: RcOf(a, before) == rc && Left(a, before) == after
  {
    if IsSend(before, rc, after) {
      var a := Answer(rc, before - after);
      assert RcOf(a, before) == rc && Left(a, before) == after;
    }
  }
}
