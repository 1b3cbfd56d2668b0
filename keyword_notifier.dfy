/**
 * `SMSNotifier` of src/sms_notifier.py: an inbound message is a command.
 * A body containing START subscribes its sender, one containing STOP (and not
 * START) unsubscribes it, and anything else gets the help text; every
 * processed message gets exactly one reply.
 *
 * As in the other variant, `hasClient` says whether the Twilio client could be
 * configured, the listing is `None` when `messages.list` raises, and sends are
 * replaced by their outcomes: `deliver(k)` for the k-th alert and
 * `replyOk(j)` for the reply to the j-th processed message.
 */
module KeywordNotifier {
  import opened Wrappers
  import opened Text
  import opened Config
  import opened StateStore
  import opened Messaging

  datatype Command = Subscribe | Unsubscribe | Other

  /** The body, stripped and upper-cased, is searched for START first and for STOP only then. */
  function Classify(body: string): Command {
    var t := Upper(Strip(body));
    if Contains(t, SubscribeKeyword) then Subscribe
    else if Contains(t, UnsubscribeKeyword) then Unsubscribe
    else Other
  }

  /** An example of `ClassifyAnyCase`: a lower-case keyword counts. */
  lemma ClassifyLowerCase()
    ensures Classify("stop") == Unsubscribe
  {
    StripUnspaced("stop");
    assert Upper("stop") == "STOP";
    assert !Contains("STOP", SubscribeKeyword) by {
      ContainsFits("STOP", SubscribeKeyword);
    }
    assert StartsWith("STOP", UnsubscribeKeyword);
  }

  lemma ClassifyStart()
    ensures Classify("start") == Subscribe
  {
    StripUnspaced("start");
    assert Upper("start") == "START";
    assert StartsWith("START", SubscribeKeyword);
  }

  /** START is tested first, so a body with both keywords subscribes. */
  lemma ClassifyBoth()
    ensures Classify("STOP START") == Subscribe
  {
    var t := "STOP START";
    StripUnspaced(t);
    assert Upper(t) == t;
    assert OccursAt(t, SubscribeKeyword, 5) by {
      assert t[5..10] == SubscribeKeyword;
    }
    ContainsAt(t, SubscribeKeyword);
  }

  /** Any other text is neither command. */
  lemma ClassifyOther()
    ensures Classify("hi") == Other
  {
    StripUnspaced("hi");
    assert Upper("hi") == "HI";
    ContainsFits("HI", SubscribeKeyword);
    ContainsFits("HI", UnsubscribeKeyword);
  }

  /**
   * For every body: START anywhere in the upper-cased text subscribes, even
   * next to STOP; STOP without START unsubscribes; anything else is neither.
   * Stripping does not matter, since neither keyword starts or ends with
   * whitespace.
   */
  lemma ClassifyByKeywords(body: string)
    ensures Contains(Upper(body), SubscribeKeyword) ==> Classify(body) == Subscribe
    ensures !Contains(Upper(body), SubscribeKeyword) && Contains(Upper(body), UnsubscribeKeyword) ==>
      Classify(body) == Unsubscribe
    ensures !Contains(Upper(body), SubscribeKeyword) && !Contains(Upper(body), UnsubscribeKeyword) ==>
      Classify(body) == Other
  {
    StripUpper(body);
    ContainsStripped(Upper(body), SubscribeKeyword);
    ContainsStripped(Upper(body), UnsubscribeKeyword);
  }

  /** Two bodies that differ only in the case of their letters are classified alike. */
  lemma ClassifyCaseBlind(body: string, other: string)
    requires Upper(body) == Upper(other)
    ensures Classify(body) == Classify(other)
  {
    ClassifyByKeywords(body);
    ClassifyByKeywords(other);
  }

  /** A command is recognised in any letter case: lower-casing or upper-casing a body changes nothing. */
  lemma ClassifyAnyCase(body: string)
    ensures Classify(Lower(body)) == Classify(body)
    ensures Classify(Upper(body)) == Classify(body)
  {
    UpperLower(body);
    UpperIdempotent(body);
    ClassifyCaseBlind(Lower(body), body);
    ClassifyCaseBlind(Upper(body), body);
  }

  /** A message reduced to what processing uses: its sender and its command. */
  datatype Order = Order(sender: Phone, cmd: Command)

  /** The listing, classified. */
  function Orders(ms: seq<Message>): (os: seq<Order>)
    ensures |os| == |ms|
    ensures forall j :: 0 <= j < |ms| ==> os[j] == Order(ms[j].sender, Classify(ms[j].body))
  {
    seq(|ms|, j requires 0 <= j < |ms| => Order(ms[j].sender, Classify(ms[j].body)))
  }

  /** The five replies `check_for_subscription_messages` can send. */
  datatype ReplyKind = Subscribed | AlreadySubscribed | Unsubscribed | NotSubscribed | Help

  datatype Reply = Reply(to: Phone, kind: ReplyKind)

  /** The state after one order: START appends an absent sender, STOP removes a present one. */
  function Obey(s: State, o: Order): State {
    match o.cmd
    case Subscribe => s.(subscribers := WithSubscriber(s.subscribers, o.sender))
    case Unsubscribe =>
      if o.sender in s.subscribers then s.(subscribers := RemoveFirst(s.subscribers, o.sender)) else s
    case Other => s
  }

  /** The reply to one order, which says whether anything changed. */
  function Answer(s: State, o: Order): ReplyKind {
    match o.cmd
    case Subscribe => if o.sender !in s.subscribers then Subscribed else AlreadySubscribed
    case Unsubscribe => if o.sender in s.subscribers then Unsubscribed else NotSubscribed
    case Other => Help
  }

  /** The state after the first `n` orders were obeyed, in listing order (newest first). */
  function Obeyed(s: State, os: seq<Order>, n: nat): State
    requires n <= |os|
  {
    if n == 0 then s else Obey(Obeyed(s, os, n - 1), os[n - 1])
  }

  /** The replies sent while obeying the first `n` orders. */
  function RepliesFor(s: State, os: seq<Order>, n: nat): seq<Reply>
    requires n <= |os|
  {
    if n == 0 then []
    else RepliesFor(s, os, n - 1) + [Reply(os[n - 1].sender, Answer(Obeyed(s, os, n - 1), os[n - 1]))]
  }

  /**
   * The reply names what the order did: the help text exactly for a body that
   * is neither command, a START reply for START and a STOP reply for STOP, and
   * "subscribed"/"unsubscribed" exactly when the list changed.
   */
  lemma AnswerFacts(s: State, o: Order)
    ensures Answer(s, o) == Help <==> o.cmd == Other
    ensures Answer(s, o) in {Subscribed, AlreadySubscribed} <==> o.cmd == Subscribe
    ensures Answer(s, o) in {Subscribed, Unsubscribed} <==> Obey(s, o) != s
  {
    if o.cmd == Subscribe && o.sender !in s.subscribers {
      assert o.sender in Obey(s, o).subscribers;
    }
    if o.cmd == Unsubscribe && o.sender in s.subscribers {
      assert |Obey(s, o).subscribers| < |s.subscribers| by {
        RemoveFirstSplits(s.subscribers, o.sender);
      }
    }
  }

  /**
   * Exactly one reply per processed message, in order: the j-th goes to the
   * j-th sender and answers its order in the state the earlier orders left.
   */
  lemma {:induction false} RepliesOnePerMessage(s: State, os: seq<Order>, n: nat)
    requires n <= |os|
    ensures |RepliesFor(s, os, n)| == n
    ensures forall j {:trigger RepliesFor(s, os, n)[j]} :: 0 <= j < n ==>
      RepliesFor(s, os, n)[j] == Reply(os[j].sender, Answer(Obeyed(s, os, j), os[j]))
  {
    if n > 0 {
      RepliesOnePerMessage(s, os, n - 1);
    }
  }

  /** An order changes only the subscriber list, keeps it duplicate-free, and affects its sender only. */
  lemma ObeyFacts(s: State, o: Order)
    requires NoDuplicates(s.subscribers)
    ensures var r := Obey(s, o);
      && r.(subscribers := s.subscribers) == s
      && NoDuplicates(r.subscribers)
      && (forall x :: x != o.sender ==> (x in r.subscribers <==> x in s.subscribers))
      && (o.cmd == Subscribe ==> o.sender in r.subscribers)
      && (o.cmd == Unsubscribe ==> o.sender !in r.subscribers)
      && (o.cmd == Other ==> r == s)
  {
    WithSubscriberProperties(s.subscribers, o.sender);
    RemoveFirstNoDuplicates(s.subscribers, o.sender);
  }

  lemma {:induction false} ObeyedKeeps(s: State, os: seq<Order>, n: nat)
    requires n <= |os| && NoDuplicates(s.subscribers)
    ensures var r := Obeyed(s, os, n);
      r.(subscribers := s.subscribers) == s && NoDuplicates(r.subscribers)
  {
    if n > 0 {
      ObeyedKeeps(s, os, n - 1);
      ObeyFacts(Obeyed(s, os, n - 1), os[n - 1]);
    }
  }

  /** The `n`-th order of the listing-order fold affects its sender only. */
  lemma ObeyedStep(s: State, os: seq<Order>, n: nat)
    requires 0 < n <= |os| && NoDuplicates(s.subscribers)
    ensures var t := Obeyed(s, os, n - 1);
      var r := Obeyed(s, os, n);
      && (forall x :: x != os[n - 1].sender ==> (x in r.subscribers <==> x in t.subscribers))
      && (os[n - 1].cmd == Subscribe ==> os[n - 1].sender in r.subscribers)
      && (os[n - 1].cmd == Unsubscribe ==> os[n - 1].sender !in r.subscribers)
      && (os[n - 1].cmd == Other ==> r == t)
  {
    ObeyedKeeps(s, os, n - 1);
    ObeyFacts(Obeyed(s, os, n - 1), os[n - 1]);
  }

  /** None of the orders in `lo..hi` is a command from `x`. */
  predicate NoCommandFrom(os: seq<Order>, lo: nat, hi: nat, x: Phone)
    requires hi <= |os|
  {
    forall k :: lo <= k < hi ==> os[k].sender != x || os[k].cmd == Other
  }

  /** Order `j` is a command (START or STOP). */
  predicate IsCommand(os: seq<Order>, j: nat)
    requires j < |os|
  {
    os[j].cmd != Other
  }

  /**
   * As written: a number without a command keeps its membership, and for one
   * with commands the last one obeyed decides. The listing is newest first,
   * so that is the OLDEST command of the window.
   */
  lemma {:induction false} ObeyedMembership(s: State, os: seq<Order>, n: nat)
    requires n <= |os| && NoDuplicates(s.subscribers)
    ensures var r := Obeyed(s, os, n);
      && (forall x :: NoCommandFrom(os, 0, n, x) ==> (x in r.subscribers <==> x in s.subscribers))
      && (forall j: nat :: j < n && IsCommand(os, j) && NoCommandFrom(os, j + 1, n, os[j].sender) ==>
            (os[j].sender in r.subscribers <==> os[j].cmd == Subscribe))
  {
    if n > 0 {
      ObeyedMembership(s, os, n - 1);
      ObeyedStep(s, os, n);
      MembershipStep(s, Obeyed(s, os, n - 1), Obeyed(s, os, n), os, n);
    }
  }

  /** The induction step of `ObeyedMembership`, for any states `t` and `r` related as one order relates them. */
  lemma MembershipStep(s: State, t: State, r: State, os: seq<Order>, n: nat)
    requires 0 < n <= |os|
    requires forall x :: x != os[n - 1].sender ==> (x in r.subscribers <==> x in t.subscribers)
    requires os[n - 1].cmd == Subscribe ==> os[n - 1].sender in r.subscribers
    requires os[n - 1].cmd == Unsubscribe ==> os[n - 1].sender !in r.subscribers
    requires os[n - 1].cmd == Other ==> r == t
    requires forall x :: NoCommandFrom(os, 0, n - 1, x) ==> (x in t.subscribers <==> x in s.subscribers)
    requires forall j: nat :: j < n - 1 && IsCommand(os, j) && NoCommandFrom(os, j + 1, n - 1, os[j].sender) ==>
      (os[j].sender in t.subscribers <==> os[j].cmd == Subscribe)
    ensures forall x :: NoCommandFrom(os, 0, n, x) ==> (x in r.subscribers <==> x in s.subscribers)
    ensures forall j: nat :: j < n && IsCommand(os, j) && NoCommandFrom(os, j + 1, n, os[j].sender) ==>
      (os[j].sender in r.subscribers <==> os[j].cmd == Subscribe)
  {
    var p := os[n - 1].sender;
    forall x | NoCommandFrom(os, 0, n, x)
      ensures x in r.subscribers <==> x in s.subscribers
    {
      assert NoCommandFrom(os, 0, n - 1, x);
      assert p != x || os[n - 1].cmd == Other;
    }
    forall j: nat | j < n && IsCommand(os, j) && NoCommandFrom(os, j + 1, n, os[j].sender)
      ensures os[j].sender in r.subscribers <==> os[j].cmd == Subscribe
    {
      if j < n - 1 {
        assert NoCommandFrom(os, j + 1, n - 1, os[j].sender);
        assert p != os[j].sender || os[n - 1].cmd == Other;
      }
    }
  }

  /**
   * A new number that texts START and then, in the same window, STOP ends up
   * subscribed and is told so: the listing is newest first, so STOP is
   * obeyed (and answered "not subscribed") before START.
   */
  lemma OldestCommandWins()
    ensures var ms := [Message("+15550100", "10:05", "stop"), Message("+15550100", "10:00", "start")];
      var os := Orders(ms);
      && NewCount("09:00", ms) == 2
      && "+15550100" in Obeyed(Default, os, 2).subscribers
      && RepliesFor(Default, os, 2) == [Reply("+15550100", NotSubscribed), Reply("+15550100", Subscribed)]
  {
    var ms := [Message("+15550100", "10:05", "stop"), Message("+15550100", "10:00", "start")];
    StopThenStartWindow(ms);
    StopThenStartOrders(ms);
    StopThenStartObeyed();
  }

  lemma StopThenStartWindow(ms: seq<Message>)
    requires ms == [Message("+15550100", "10:05", "stop"), Message("+15550100", "10:00", "start")]
    ensures NewCount("09:00", ms) == 2
  {
    assert !AlreadySeen("09:00", ms[0].date) && !AlreadySeen("09:00", ms[1].date);
    NewCountStops("09:00", ms, 2);
  }

  lemma StopThenStartOrders(ms: seq<Message>)
    requires ms == [Message("+15550100", "10:05", "stop"), Message("+15550100", "10:00", "start")]
    ensures Orders(ms) == [Order("+15550100", Unsubscribe), Order("+15550100", Subscribe)]
  {
    OrdersOfTwo(ms);
    ClassifyLowerCase();
    ClassifyStart();
  }

  lemma OrdersOfTwo(ms: seq<Message>)
    requires |ms| == 2
    ensures Orders(ms) == [Order(ms[0].sender, Classify(ms[0].body)), Order(ms[1].sender, Classify(ms[1].body))]
  {
  }

  lemma StopThenStartObeyed()
    ensures var os := [Order("+15550100", Unsubscribe), Order("+15550100", Subscribe)];
      && Obeyed(Default, os, 2).subscribers == ["+15550100"]
      && RepliesFor(Default, os, 2) == [Reply("+15550100", NotSubscribed), Reply("+15550100", Subscribed)]
  {
    var os := [Order("+15550100", Unsubscribe), Order("+15550100", Subscribe)];
    assert Obeyed(Default, os, 1) == Default;
  }

  /**
   * The evidently intended order: the new messages obeyed oldest first, so
   * that each sender's latest command decides.
   */
  function ObeyedInOrder(s: State, os: seq<Order>, n: nat): State
    requires n <= |os|
    decreases n
  {
    if n == 0 then s else ObeyedInOrder(Obey(s, os[n - 1]), os, n - 1)
  }

  /** The corrected fold leaves a number without a command in the first `n` orders as it was. */
  lemma {:induction false} InOrderSilent(s: State, os: seq<Order>, n: nat, x: Phone)
    requires n <= |os| && NoDuplicates(s.subscribers) && NoCommandFrom(os, 0, n, x)
    ensures var r := ObeyedInOrder(s, os, n);
      && r.(subscribers := s.subscribers) == s
      && NoDuplicates(r.subscribers)
      && (x in r.subscribers <==> x in s.subscribers)
    decreases n
  {
    if n > 0 {
      ObeyFacts(s, os[n - 1]);
      assert os[n - 1].sender != x || os[n - 1].cmd == Other;
      assert NoCommandFrom(os, 0, n - 1, x);
      InOrderSilent(Obey(s, os[n - 1]), os, n - 1, x);
    }
  }

  /**
   * Corrected: the NEWEST command of each sender in the window decides its
   * membership (order `j` is that command when no earlier position of the
   * listing holds a command from the same number).
   */
  lemma {:induction false} LatestCommandWins(s: State, os: seq<Order>, n: nat, j: nat)
    requires n <= |os| && NoDuplicates(s.subscribers)
    requires j < n && IsCommand(os, j) && NoCommandFrom(os, 0, j, os[j].sender)
    ensures os[j].sender in ObeyedInOrder(s, os, n).subscribers <==> os[j].cmd == Subscribe
    decreases n
  {
    var s' := Obey(s, os[n - 1]);
    ObeyFacts(s, os[n - 1]);
    if j == n - 1 {
      InOrderSilent(s', os, n - 1, os[j].sender);
    } else {
      LatestCommandWins(s', os, n - 1, j);
    }
  }

  /** With the corrected order the same window ends unsubscribed, as the sender last asked. */
  lemma InOrderHonoursLatest()
    ensures ObeyedInOrder(Default, [Order("+15550100", Unsubscribe), Order("+15550100", Subscribe)], 2).subscribers == []
  {
  }

  class KeywordSmsNotifier {
    const hasClient: bool
    const sm: StateManager

    constructor (hasClient: bool, sm: StateManager)
      ensures this.hasClient == hasClient && this.sm == sm
    {
      this.hasClient := hasClient;
      this.sm := sm;
    }

    /**
     * `send_notification`: whether any of the per-subscriber alerts went out.
     * The source writes this method out in both notifier classes; here both
     * share the loop, `Messaging.Broadcast`.
     */
    method SendNotification(deliver: nat -> bool) returns (ok: bool, sent: seq<Phone>)
      ensures var subs := sm.Current().subscribers;
        && ok == (hasClient && Successes(deliver, |subs|) > 0)
        && sent == (if hasClient then subs else [])
    {
      if !hasClient {
        return false, [];
      }
      var subscribers := sm.GetSubscribers();
      if subscribers == [] {
        return false, [];
      }
      var successfulSends;
      successfulSends, sent := Broadcast(subscribers, deliver);
      ok := successfulSends > 0;
    }

    /** `add_subscriber`: the state manager's answer, passed through. */
    method AddSubscriber(p: Phone) returns (added: bool)
      modifies sm.disk
      ensures added == (p !in old(sm.Current()).subscribers)
      ensures sm.Current() == old(sm.Current()).(subscribers := WithSubscriber(old(sm.Current()).subscribers, p))
      ensures !added ==> sm.disk.stateFile == old(sm.disk.stateFile) && sm.disk.writes == old(sm.disk.writes)
    {
      added := sm.AddSubscriber(p);
    }

    /** `remove_subscriber`: the state manager's answer, passed through. */
    method RemoveSubscriber(p: Phone) returns (removed: bool)
      modifies sm.disk
      ensures removed == (p in old(sm.Current()).subscribers)
      ensures sm.Current() == old(sm.Current()).(subscribers := RemoveFirst(old(sm.Current()).subscribers, p))
      ensures !removed ==> sm.disk.stateFile == old(sm.disk.stateFile) && sm.disk.writes == old(sm.disk.writes)
    {
      removed := sm.RemoveSubscriber(p);
    }

    method GetSubscribers() returns (subs: seq<Phone>)
      ensures subs == sm.Current().subscribers
    {
      subs := sm.GetSubscribers();
    }

    /** `_send_reply`: never raises; true iff there is a client and the send went through. */
    method SendReply(to: Phone, kind: ReplyKind, transportOk: bool) returns (ok: bool, sent: Option<Reply>)
      ensures ok == (hasClient && transportOk)
      ensures sent == if hasClient then Some(Reply(to, kind)) else None
    {
      if !hasClient {
        return false, None;
      }
      sent := Some(Reply(to, kind));
      ok := transportOk;
    }

    /**
     * `check_for_subscription_messages`. `replies` lists the replies
     * attempted, in order.
     */
    method CheckForSubscriptionMessages(utcHourAgo: string, nowIso: string,
                                        listing: Option<seq<Message>>, replyOk: nat -> bool)
      returns (processed: nat, replies: seq<Reply>)
      modifies sm.disk
      ensures processed == if hasClient && listing.Some?
        then NewCount(Cursor(old(sm.Current()), utcHourAgo), listing.value) else 0
      ensures var s := old(sm.Current());
        sm.Current() == if !hasClient || listing.None? then s
          else if listing.value == [] then s.(lastMessageDate := Some(nowIso))
          else Obeyed(s, Orders(listing.value), processed).(lastMessageDate := Some(listing.value[0].date))
      ensures !hasClient || listing.None? ==>
        sm.disk.stateFile == old(sm.disk.stateFile) && sm.disk.writes == old(sm.disk.writes)
      ensures processed > 0 ==> listing.Some? && replies == RepliesFor(old(sm.Current()), Orders(listing.value), processed)
      ensures processed == 0 ==> replies == []
    {
      processed, replies := 0, [];
      if !hasClient {
        return;
      }
      var lastMessageDate := sm.GetLastMessageDate(utcHourAgo);
      if listing.None? {
        // `messages.list` raised; the outer handler logs it and nothing else happens.
        return;
      }
      var messages := listing.value;
      if messages == [] {
        sm.UpdateLastMessageDate(nowIso);
        return;
      }
      processed, replies := ProcessNew(lastMessageDate, messages, replyOk);
      sm.UpdateLastMessageDate(messages[0].date);
    }

    /** The message loop: each new message is classified, obeyed and answered once. */
    method ProcessNew(lastMessageDate: string, messages: seq<Message>, replyOk: nat -> bool)
      returns (processed: nat, replies: seq<Reply>)
      requires hasClient
      modifies sm.disk
      ensures processed == NewCount(lastMessageDate, messages)
      ensures sm.Current() == Obeyed(old(sm.Current()), Orders(messages), processed)
      ensures replies == RepliesFor(old(sm.Current()), Orders(messages), processed)
    {
      processed, replies := 0, [];
      ghost var s0 := sm.Current();
      ghost var os := Orders(messages);
      var i := 0;
      while i < |messages|
        invariant 0 <= i <= |messages| && processed == i
        invariant i <= NewCount(lastMessageDate, messages)
        invariant sm.Current() == Obeyed(s0, os, i)
        invariant replies == RepliesFor(s0, os, i)
      {
        var message := messages[i];
        if lastMessageDate != [] && LexLe(message.date, lastMessageDate) {
          NewCountStops(lastMessageDate, messages, i);
          break;
        }
        NewCountGoesOn(lastMessageDate, messages, i);
        processed := processed + 1;
        var reply := AnswerMessage(messages, i, replyOk(processed - 1), s0, os);
        replies := replies + [reply];
        i := i + 1;
      }
      if i == |messages| {
        NewCountStops(lastMessageDate, messages, i);
      }
    }

    /** One pass of the message loop: obey the i-th message and send its reply. */
    method AnswerMessage(messages: seq<Message>, i: nat, transportOk: bool, ghost s0: State, ghost os: seq<Order>)
      returns (reply: Reply)
      requires hasClient && i < |messages| && os == Orders(messages)
      requires sm.Current() == Obeyed(s0, os, i)
      modifies sm.disk
      ensures sm.Current() == Obeyed(s0, os, i + 1)
      ensures reply == Reply(os[i].sender, Answer(Obeyed(s0, os, i), os[i]))
    {
      var message := messages[i];
      var kind := HandleCommand(message);
      var _, sent := SendReply(message.sender, kind, transportOk);
      reply := sent.value;
    }

    /** The keyword branches for one message, with the reply they choose. */
    method HandleCommand(message: Message) returns (kind: ReplyKind)
      modifies sm.disk
      ensures var o := Order(message.sender, Classify(message.body));
        sm.Current() == Obey(old(sm.Current()), o) && kind == Answer(old(sm.Current()), o)
    {
      var body := Upper(Strip(message.body));
      var fromNumber := message.sender;
      if Contains(body, SubscribeKeyword) {
        var added := AddSubscriber(fromNumber);
        kind := if added then Subscribed else AlreadySubscribed;
      } else if Contains(body, UnsubscribeKeyword) {
        var removed := RemoveSubscriber(fromNumber);
        kind := if removed then Unsubscribed else NotSubscribed;
      } else {
        kind := Help;
      }
    }
  }
}
