/**
 * `SMSNotifier` of nvidia_gpu_stock_checker/sms_notifier.py: everyone who
 * texts the number is subscribed, and removed again when the confirmation
 * sent back reports that the recipient has opted out.
 *
 * The notifier's `StateManager` is taken to have the interface of
 * src/state_manager.py. Whether the Twilio client could be configured is the
 * flag `hasClient`; the listing is `None` when `messages.list` raises; the
 * outcome of the confirmation to the j-th processed message is `confirm(j)`.
 */
module Notifier {
  import opened Wrappers
  import opened Text
  import opened StateStore
  import opened Messaging

  /**
   * What became of a confirmation: it was sent and fetched back with an
   * `error_code`, or the send or the fetch raised (and was caught).
   */
  datatype Confirm = Fetched(errorCode: Option<int>) | Failed

  /** Twilio's error code for a recipient who has replied STOP to the service. */
  const OptOutCode: int := 21610

  predicate OptedOut(c: Confirm) {
    c.Fetched? && c.errorCode == Some(OptOutCode)
  }

  /** One processed message: the sender is added, then removed again when the confirmation reports an opt-out. */
  function EnrollStep(s: State, sender: Phone, c: Confirm): State {
    var added := s.(subscribers := WithSubscriber(s.subscribers, sender));
    if OptedOut(c) then added.(subscribers := RemoveFirst(added.subscribers, sender)) else added
  }

  /** The state after the first `n` messages of the listing were processed, in listing order. */
  function Enrolled(s: State, ms: seq<Message>, confirm: nat -> Confirm, n: nat): State
    requires n <= |ms|
  {
    if n == 0 then s else EnrollStep(Enrolled(s, ms, confirm, n - 1), ms[n - 1].sender, confirm(n - 1))
  }

  /** Processing touches only the subscriber list, and keeps it duplicate-free. */
  lemma {:induction false} EnrolledKeeps(s: State, ms: seq<Message>, confirm: nat -> Confirm, n: nat)
    requires n <= |ms|
    ensures var r := Enrolled(s, ms, confirm, n);
      && r.(subscribers := s.subscribers) == s
      && (NoDuplicates(s.subscribers) ==> NoDuplicates(r.subscribers))
  {
    if n > 0 {
      EnrolledKeeps(s, ms, confirm, n - 1);
      var t := Enrolled(s, ms, confirm, n - 1);
      var p := ms[n - 1].sender;
      if NoDuplicates(t.subscribers) {
        WithSubscriberProperties(t.subscribers, p);
        RemoveFirstNoDuplicates(WithSubscriber(t.subscribers, p), p);
      }
    }
  }

  /** One step changes the membership of its sender only, as the confirmation says. */
  lemma EnrollStepMembership(s: State, sender: Phone, c: Confirm)
    requires NoDuplicates(s.subscribers)
    ensures var r := EnrollStep(s, sender, c);
      && (forall x :: x != sender ==> (x in r.subscribers <==> x in s.subscribers))
      && (sender in r.subscribers <==> !OptedOut(c))
  {
    WithSubscriberProperties(s.subscribers, sender);
    RemoveFirstNoDuplicates(WithSubscriber(s.subscribers, sender), sender);
  }

  /** `r` differs from `t` at most in the membership of `p`, which is in `r` iff `c` is not an opt-out. */
  ghost predicate OneStep(t: State, r: State, p: Phone, c: Confirm) {
    && (forall x :: x != p ==> (x in r.subscribers <==> x in t.subscribers))
    && (p in r.subscribers <==> !OptedOut(c))
  }

  /** The `n`-th message changes the membership of its sender only. */
  lemma EnrolledStep(s: State, ms: seq<Message>, confirm: nat -> Confirm, n: nat)
    requires 0 < n <= |ms| && NoDuplicates(s.subscribers)
    ensures OneStep(Enrolled(s, ms, confirm, n - 1), Enrolled(s, ms, confirm, n), ms[n - 1].sender, confirm(n - 1))
  {
    EnrolledKeeps(s, ms, confirm, n - 1);
    EnrollStepMembership(Enrolled(s, ms, confirm, n - 1), ms[n - 1].sender, confirm(n - 1));
  }

  /** None of the first `n` messages is from `x`. */
  predicate Silent(ms: seq<Message>, n: nat, x: Phone)
    requires n <= |ms|
  {
    forall j :: 0 <= j < n ==> ms[j].sender != x
  }

  /** Message `j` is the last of the first `n` from its sender. */
  predicate LastFrom(ms: seq<Message>, n: nat, j: nat)
    requires n <= |ms|
  {
    j < n && forall k :: j < k < n ==> ms[k].sender != ms[j].sender
  }

  /** A number with no message among the first `n` is in `r` iff it is in `s`. */
  ghost predicate SilentKept(s: State, r: State, ms: seq<Message>, n: nat)
    requires n <= |ms|
  {
    forall x :: Silent(ms, n, x) ==> (x in r.subscribers <==> x in s.subscribers)
  }

  /** A number with messages among the first `n` is in `r` iff the confirmation to its last one was not an opt-out. */
  ghost predicate LastDecides(r: State, ms: seq<Message>, confirm: nat -> Confirm, n: nat)
    requires n <= |ms|
  {
    forall j: nat :: LastFrom(ms, n, j) ==> (ms[j].sender in r.subscribers <==> !OptedOut(confirm(j)))
  }

  /**
   * A number that sent nothing keeps its membership; for one that did, the
   * confirmation to its last processed message decides: it stays subscribed
   * iff that confirmation did not report an opt-out.
   */
  lemma {:induction false} EnrolledMembership(s: State, ms: seq<Message>, confirm: nat -> Confirm, n: nat)
    requires n <= |ms| && NoDuplicates(s.subscribers)
    ensures SilentKept(s, Enrolled(s, ms, confirm, n), ms, n)
    ensures LastDecides(Enrolled(s, ms, confirm, n), ms, confirm, n)
  {
    if n > 0 {
      EnrolledMembership(s, ms, confirm, n - 1);
      EnrolledStep(s, ms, confirm, n);
      MembershipStep(s, Enrolled(s, ms, confirm, n - 1), Enrolled(s, ms, confirm, n), ms, confirm, n);
    }
  }

  /** The induction step of `EnrolledMembership`, for any states `t` and `r` related as one step relates them. */
  lemma MembershipStep(s: State, t: State, r: State, ms: seq<Message>, confirm: nat -> Confirm, n: nat)
    requires 0 < n <= |ms|
    requires OneStep(t, r, ms[n - 1].sender, confirm(n - 1))
    requires SilentKept(s, t, ms, n - 1) && LastDecides(t, ms, confirm, n - 1)
    ensures SilentKept(s, r, ms, n) && LastDecides(r, ms, confirm, n)
  {
    var p := ms[n - 1].sender;
    forall x | Silent(ms, n, x)
      ensures x in r.subscribers <==> x in s.subscribers
    {
      assert p != x;
      assert Silent(ms, n - 1, x);
    }
    forall j: nat | LastFrom(ms, n, j)
      ensures ms[j].sender in r.subscribers <==> !OptedOut(confirm(j))
    {
      if j < n - 1 {
        assert p != ms[j].sender;
        assert LastFrom(ms, n - 1, j);
      }
    }
  }

  /**
   * The state `check_for_subscription_messages` leaves behind: nothing changes
   * without a client or when listing fails; an empty listing moves the cursor
   * to now; otherwise the new prefix is processed and the cursor becomes the
   * date of the newest message.
   */
  function Inbox(s: State, hasClient: bool, utcHourAgo: string, nowIso: string,
                 listing: Option<seq<Message>>, confirm: nat -> Confirm): State
  {
    if !hasClient || listing.None? then s
    else if listing.value == [] then s.(lastMessageDate := Some(nowIso))
    else
      var ms := listing.value;
      Enrolled(s, ms, confirm, NewCount(Cursor(s, utcHourAgo), ms)).(lastMessageDate := Some(ms[0].date))
  }

  /**
   * The inbox step never touches availability or `last_checked`, keeps a
   * duplicate-free subscriber list duplicate-free, and sets the cursor as
   * described.
   */
  lemma InboxFacts(s: State, hasClient: bool, utcHourAgo: string, nowIso: string,
                   listing: Option<seq<Message>>, confirm: nat -> Confirm)
    ensures var r := Inbox(s, hasClient, utcHourAgo, nowIso, listing, confirm);
      && r.available == s.available && r.lastChecked == s.lastChecked
      && (NoDuplicates(s.subscribers) ==> NoDuplicates(r.subscribers))
      && (!hasClient || listing.None? ==> r == s)
      && (hasClient && listing.Some? ==>
            r.lastMessageDate == Some(if listing.value == [] then nowIso else listing.value[0].date))
  {
    if hasClient && listing.Some? && listing.value != [] {
      var ms := listing.value;
      EnrolledKeeps(s, ms, confirm, NewCount(Cursor(s, utcHourAgo), ms));
    }
  }

  class SmsNotifier {
    const hasClient: bool
    const sm: StateManager

    constructor (hasClient: bool, sm: StateManager)
      ensures this.hasClient == hasClient && this.sm == sm
    {
      this.hasClient := hasClient;
      this.sm := sm;
    }

    /**
     * `send_notification`: nothing is sent without a client; otherwise one
     * alert per subscriber, and the result is whether any of them went out.
     * The subscriber list is only read.
     */
    method SendNotification(deliver: nat -> bool) returns (ok: bool, sent: seq<Phone>)
      ensures var subs := sm.Current().subscribers;
        && ok == (hasClient && Successes(deliver, |subs|) > 0)
        && sent == (if hasClient then subs else [])
    {
      if !hasClient {
        return false, [];
      }
      var subscribers := sm.GetSubscribers();
      if subscribers == [] {
        return false, [];
      }
      var successfulSends;
      successfulSends, sent := Broadcast(subscribers, deliver);
      ok := successfulSends > 0;
    }

    method GetSubscribers() returns (subs: seq<Phone>)
      ensures subs == sm.Current().subscribers
    {
      subs := sm.GetSubscribers();
    }

    /**
     * `check_for_subscription_messages`. `processed` is `processed_count`;
     * `confirmed` lists the recipients of the confirmations attempted, one per
     * processed message, in order.
     */
    method CheckForSubscriptionMessages(utcHourAgo: string, nowIso: string,
                                        listing: Option<seq<Message>>, confirm: nat -> Confirm)
      returns (processed: nat, confirmed: seq<Phone>)
      modifies sm.disk
      ensures sm.Current() == Inbox(old(sm.Current()), hasClient, utcHourAgo, nowIso, listing, confirm)
      ensures !hasClient || listing.None? ==>
        sm.disk.stateFile == old(sm.disk.stateFile) && sm.disk.writes == old(sm.disk.writes)
      ensures processed == |confirmed|
      ensures processed == if hasClient && listing.Some?
        then NewCount(Cursor(old(sm.Current()), utcHourAgo), listing.value) else 0
      ensures processed > 0 ==> listing.Some? && forall j :: 0 <= j < processed ==> confirmed[j] == listing.value[j].sender
    {
      processed, confirmed := 0, [];
      if !hasClient {
        return;
      }
      var lastMessageDate := sm.GetLastMessageDate(utcHourAgo);
      if listing.None? {
        // `messages.list` raised; the outer handler logs it and nothing else happens.
        return;
      }
      var messages := listing.value;
      if messages == [] {
        sm.UpdateLastMessageDate(nowIso);
        return;
      }
      processed, confirmed := ProcessNew(lastMessageDate, messages, confirm);
      sm.UpdateLastMessageDate(messages[0].date);
    }

    /**
     * The message loop of `check_for_subscription_messages`, newest first, up
     * to the first message that is not after the cursor.
     */
    method ProcessNew(lastMessageDate: string, messages: seq<Message>, confirm: nat -> Confirm)
      returns (processed: nat, confirmed: seq<Phone>)
      modifies sm.disk
      ensures processed == NewCount(lastMessageDate, messages)
      ensures sm.Current() == Enrolled(old(sm.Current()), messages, confirm, processed)
      ensures |confirmed| == processed && forall j :: 0 <= j < processed ==> confirmed[j] == messages[j].sender
    {
      processed, confirmed := 0, [];
      ghost var s0 := sm.Current();
      var i := 0;
      while i < |messages|
        invariant 0 <= i <= |messages| && processed == i
        invariant i <= NewCount(lastMessageDate, messages)
        invariant sm.Current() == Enrolled(s0, messages, confirm, i)
        invariant |confirmed| == i && forall j :: 0 <= j < i ==> confirmed[j] == messages[j].sender
      {
        var message := messages[i];
        if lastMessageDate != [] && LexLe(message.date, lastMessageDate) {
          NewCountStops(lastMessageDate, messages, i);
          break;
        }
        NewCountGoesOn(lastMessageDate, messages, i);
        processed := processed + 1;
        var fromNumber := message.sender;
        var _ := sm.AddSubscriber(fromNumber);
        confirmed := confirmed + [fromNumber];
        var response := confirm(processed - 1);
        if response.Fetched? && response.errorCode == Some(OptOutCode) {
          var _ := sm.RemoveSubscriber(fromNumber);
        }
        i := i + 1;
      }
      if i == |messages| {
        NewCountStops(lastMessageDate, messages, i);
      }
    }
  }
}
