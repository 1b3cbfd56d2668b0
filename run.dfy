/**
 * `main` of main.py: one run of the job. The inbox is processed first, then
 * availability is probed, and an alert goes out only when the product is
 * available, has just become so, and someone is subscribed.
 *
 * The notifier and the checker each own a `StateManager`; both are on the
 * same state file, here the one `Disk`.
 */
module Run {
  import opened Wrappers
  import opened StateStore
  import opened Messaging
  import opened Prober
  import opened Notifier

  /** The decision of `main` once `check_stock` has returned. */
  predicate ShouldNotify(isAvailable: bool, stateChanged: bool, subscriberCount: nat) {
    isAvailable && stateChanged && subscriberCount > 0
  }

  /**
   * In terms of the probe: an alert is due exactly when the decisive page
   * offered the product, it was not available before, and the list is not
   * empty. In particular nothing is sent while the product is unavailable,
   * whatever the "changed" flag says.
   */
  lemma NotifyDecision(prev: bool, browserStarted: bool, attempts: seq<Attempt>, count: nat)
    requires |attempts| == MaxRetries
    ensures var p := CheckStockSpec(prev, browserStarted, attempts);
      && (ShouldNotify(p.available, p.changed, count) <==>
            browserStarted && OfferedOn(attempts[Decisive(attempts, 0)]) && !prev && count > 0)
      && (!p.available ==> !ShouldNotify(p.available, p.changed, count))
  {
    CheckStockFacts(prev, browserStarted, attempts);
  }

  /**
   * The flag alone would mislead: a run that fails to load the page after a
   * previous "available" returns `(False, True)`, and no alert is sent.
   */
  lemma UnavailableButChanged(attempts: seq<Attempt>, count: nat)
    requires |attempts| == MaxRetries && attempts[0] == OtherError
    ensures var p := CheckStockSpec(true, true, attempts);
      && !p.available && p.changed
      && !ShouldNotify(p.available, p.changed, count)
  {
  }

  /**
   * Because the inbox runs first, a number whose last message in the window
   * was confirmed without an opt-out is on the list the alert goes to.
   */
  lemma NewSubscriberAlerted(s: State, utcHourAgo: string, nowIso: string,
                             ms: seq<Message>, confirm: nat -> Confirm, j: nat)
    requires NoDuplicates(s.subscribers)
    requires ms != [] && LastFrom(ms, NewCount(Cursor(s, utcHourAgo), ms), j)
    requires !OptedOut(confirm(j))
    ensures ms[j].sender in Inbox(s, true, utcHourAgo, nowIso, Some(ms), confirm).subscribers
  {
    EnrolledMembership(s, ms, confirm, NewCount(Cursor(s, utcHourAgo), ms));
  }

  /**
   * One run. `alerted` is whether `send_notification` was called, `ok` what
   * it returned and `sent` the recipients it attempted. The probe writes
   * only availability, so the alert goes to the list the inbox step left.
   */
  method RunJob(disk: Disk, hasClient: bool, utcHourAgo: string, nowIso: string,
                listing: Option<seq<Message>>, confirm: nat -> Confirm,
                browserStarted: bool, attempts: seq<Attempt>, deliver: nat -> bool)
    returns (alerted: bool, ok: bool, sent: seq<Phone>)
    requires |attempts| == MaxRetries
    modifies disk
    ensures var s0 := old(Load(disk.stateFile));
      var s1 := Inbox(s0, hasClient, utcHourAgo, nowIso, listing, confirm);
      var p := CheckStockSpec(s0.available, browserStarted, attempts);
      && Load(disk.stateFile) == s1.(available := p.available)
      && alerted == ShouldNotify(p.available, p.changed, |s1.subscribers|)
      && ok == (alerted && hasClient && Successes(deliver, |s1.subscribers|) > 0)
      && sent == (if alerted && hasClient then s1.subscribers else [])
  {
    ghost var s0 := Load(disk.stateFile);
    var notifierState := new StateManager(disk);
    var notifier := new SmsNotifier(hasClient, notifierState);
    var _, _ := notifier.CheckForSubscriptionMessages(utcHourAgo, nowIso, listing, confirm);
    ghost var s1 := Load(disk.stateFile);
    InboxFacts(s0, hasClient, utcHourAgo, nowIso, listing, confirm);
    var checkerState := new StateManager(disk);
    var checker := new StockChecker(checkerState);
    var isAvailable, stateChanged, _ := checker.CheckStock(browserStarted, attempts);
    assert Load(disk.stateFile) == s1.(available := isAvailable);
    alerted, ok, sent := false, false, [];
    if isAvailable && stateChanged {
      var subscribers := notifier.GetSubscribers();
      if |subscribers| > 0 {
        alerted := true;
        ok, sent := notifier.SendNotification(deliver);
      }
    }
  }
}
