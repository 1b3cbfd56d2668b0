/**
 * What the two `SMSNotifier` classes have in common: the inbound listing and
 * the cursor test that decides how much of it is new, and the broadcast loop
 * of `send_notification`.
 *
 * The SMS transport is replaced by its results: the listing is a sequence of
 * messages, newest first as the transport returns it, and the outcome of the
 * k-th send of a loop is `deliver(k)`.
 */
module Messaging {
  import opened Text
  import opened StateStore

  /** An inbound message: its sender, the ISO text of `date_created`, and its body. */
  datatype Message = Message(sender: Phone, date: string, body: string)

  /**
   * The test that ends the processing loop:
   * `last_message_date and message.date_created.isoformat() <= last_message_date`.
   * An empty cursor is false in Python, so it lets every message through.
   */
  predicate AlreadySeen(cursor: string, date: string) {
    cursor != [] && LexLe(date, cursor)
  }

  /** The number of messages processed from position `i` on: up to the first one already seen. */
  function NewFrom(cursor: string, ms: seq<Message>, i: nat): (n: nat)
    requires i <= |ms|
    ensures i <= n <= |ms|
    ensures forall j :: i <= j < n ==> !AlreadySeen(cursor, ms[j].date)
    ensures n < |ms| ==> AlreadySeen(cursor, ms[n].date)
    decreases |ms| - i
  {
    if i == |ms| || AlreadySeen(cursor, ms[i].date) then i else NewFrom(cursor, ms, i + 1)
  }

  /** `processed_count`: the length of the longest prefix of the listing that is not yet seen. */
  function NewCount(cursor: string, ms: seq<Message>): (n: nat)
    ensures n <= |ms|
    ensures forall j :: 0 <= j < n ==> !AlreadySeen(cursor, ms[j].date)
    ensures n < |ms| ==> AlreadySeen(cursor, ms[n].date)
  {
    NewFrom(cursor, ms, 0)
  }

  /** A message after the cursor, reached without a stop, is inside the processed prefix. */
  lemma NewCountGoesOn(cursor: string, ms: seq<Message>, i: nat)
    requires i <= NewCount(cursor, ms) && i < |ms| && !AlreadySeen(cursor, ms[i].date)
    ensures i < NewCount(cursor, ms)
  {
  }

  /** The processed prefix ends at the end of the listing or at the first message already seen. */
  lemma NewCountStops(cursor: string, ms: seq<Message>, i: nat)
    requires i <= NewCount(cursor, ms) && i <= |ms|
    requires i == |ms| || AlreadySeen(cursor, ms[i].date)
    ensures i == NewCount(cursor, ms)
  {
  }

  /** The listing is ordered newest first. */
  predicate NewestFirst(ms: seq<Message>) {
    forall a, b :: 0 <= a < b < |ms| ==> LexLe(ms[b].date, ms[a].date)
  }

  /**
   * On a listing ordered newest first, the prefix processed is exactly the set
   * of messages dated after the cursor.
   */
  lemma NewCountSorted(cursor: string, ms: seq<Message>)
    requires NewestFirst(ms)
    ensures forall j :: 0 <= j < |ms| ==> (j < NewCount(cursor, ms) <==> !AlreadySeen(cursor, ms[j].date))
  {
    var n := NewCount(cursor, ms);
    forall j | n < j < |ms|
      ensures AlreadySeen(cursor, ms[j].date)
    {
      LexLeTransitive(ms[j].date, ms[n].date, cursor);
    }
  }

  /**
   * The stop rule relies on the order: in a listing that is not newest first,
   * an old message at the head hides a new message behind it.
   */
  lemma NewCountUnsorted()
    ensures var ms := [Message("+1", "a", ""), Message("+2", "c", "")];
      NewCount("b", ms) == 0 && !AlreadySeen("b", ms[1].date)
  {
    var ms := [Message("+1", "a", ""), Message("+2", "c", "")];
    assert AlreadySeen("b", ms[0].date);
  }

  /**
   * Moving the cursor to the head of the listing: when something was
   * processed, the new cursor is strictly later than the old one; when nothing
   * was, it is not later (it may move back).
   */
  lemma CursorAdvance(cursor: string, ms: seq<Message>)
    requires ms != []
    ensures NewCount(cursor, ms) > 0 ==> cursor == [] || (LexLe(cursor, ms[0].date) && cursor != ms[0].date)
    ensures NewCount(cursor, ms) == 0 ==> LexLe(ms[0].date, cursor)
  {
    if NewCount(cursor, ms) > 0 && cursor != [] {
      LexLeTotal(cursor, ms[0].date);
      if cursor == ms[0].date {
        LexLeReflexive(cursor);
      }
    }
  }

  /** Once the cursor is the head's non-empty date, the same listing yields nothing new. */
  lemma RerunProcessesNothing(ms: seq<Message>)
    requires ms != [] && ms[0].date != []
    ensures NewCount(ms[0].date, ms) == 0
  {
    LexLeReflexive(ms[0].date);
  }

  /** `successful_sends` after the first `n` sends. */
  function Successes(deliver: nat -> bool, n: nat): (k: nat)
    ensures k <= n
  {
    if n == 0 then 0 else Successes(deliver, n - 1) + (if deliver(n - 1) then 1 else 0)
  }

  /** Some send succeeded iff the count is positive; every send succeeded iff it is `n`. */
  lemma {:induction false} SuccessesCount(deliver: nat -> bool, n: nat)
    ensures Successes(deliver, n) > 0 <==> exists k :: 0 <= k < n && deliver(k)
    ensures Successes(deliver, n) == n <==> forall k :: 0 <= k < n ==> deliver(k)
  {
    if n > 0 {
      SuccessesCount(deliver, n - 1);
      if !deliver(n - 1) {
        assert Successes(deliver, n) <= n - 1;
      }
    }
  }

  /**
   * The loop of `send_notification`: one send per subscriber, in list order;
   * a failure is caught and the loop goes on.
   */
  method Broadcast(subscribers: seq<Phone>, deliver: nat -> bool) returns (successes: nat, sent: seq<Phone>)
    ensures sent == subscribers
    ensures successes == Successes(deliver, |subscribers|)
  {
    successes := 0;
    sent := [];
    var k := 0;
    while k < |subscribers|
      invariant 0 <= k <= |subscribers|
      invariant sent == subscribers[..k]
      invariant successes == Successes(deliver, k)
    {
      var toNumber := subscribers[k];
      sent := sent + [toNumber];
      if deliver(k) {
        successes := successes + 1;
      }
      k := k + 1;
    }
  }
}
