/**
 * The availability probe of nvidia_gpu_stock_checker/stock_checker.py.
 *
 * The browser and the HTML parser are replaced by their results: whether the
 * browser started, and for each of the (at most three) page loads, whether it
 * timed out, failed otherwise, or produced the list of product cards. A card
 * is reduced to the text of its `.item-title` and `.item-operate` elements,
 * either of which may be missing.
 */
module Prober {
  import opened Wrappers
  import opened Text
  import opened Config
  import opened StateStore

  /** `max_retries`: the number of page loads attempted at most. */
  const MaxRetries: nat := 3

  datatype Card = Card(title: Option<string>, operate: Option<string>)

  /** The outcome of one `driver.get` followed by parsing. */
  datatype Attempt = Timeout | OtherError | Page(cards: seq<Card>)

  /** The card has a title whose stripped text contains the product name, case-sensitively. */
  predicate Matches(c: Card) {
    c.title.Some? && Contains(Strip(c.title.value), TargetGpu)
  }

  /** The stripped, lower-cased `.item-operate` text offers a purchase and is not out of stock. */
  predicate Purchasable(operate: string) {
    var t := Lower(Strip(operate));
    Contains(t, "add to cart") && !Contains(t, "out of stock")
  }

  /**
   * The title test is a case-sensitive search of the raw title: stripping it
   * first makes no difference, since the product name has no whitespace at
   * either end.
   */
  lemma MatchesByTitle(c: Card)
    ensures Matches(c) <==> c.title.Some? && Contains(c.title.value, TargetGpu)
  {
    if c.title.Some? {
      ContainsStripped(c.title.value, TargetGpu);
    }
  }

  /**
   * The button test is a search of the lower-cased text, whatever the case of
   * its letters and whatever whitespace surrounds it.
   */
  lemma PurchasableByText(operate: string)
    ensures Purchasable(operate) <==>
      Contains(Lower(operate), "add to cart") && !Contains(Lower(operate), "out of stock")
  {
    StripLower(operate);
    ContainsStripped(Lower(operate), "add to cart");
    ContainsStripped(Lower(operate), "out of stock");
  }

  /** "Add to Cart", "ADD TO CART" and "add to cart" are all purchasable. */
  lemma PurchasableCaseBlind(operate: string, other: string)
    requires Lower(operate) == Lower(other)
    ensures Purchasable(operate) == Purchasable(other)
  {
    PurchasableByText(operate);
    PurchasableByText(other);
  }

  /** In particular, upper-casing the text changes nothing. */
  lemma PurchasableAnyCase(operate: string)
    ensures Purchasable(Upper(operate)) == Purchasable(operate)
  {
    LowerUpper(operate);
    PurchasableCaseBlind(Upper(operate), operate);
  }

  /** A matching card that has an `.item-operate` element: its availability is written to state. */
  predicate Inspected(c: Card) {
    Matches(c) && c.operate.Some?
  }

  /** A matching card that can be bought. */
  predicate Offered(c: Card) {
    Inspected(c) && Purchasable(c.operate.value)
  }

  /**
   * What one call returns, `(available, changed)`, together with the values
   * passed to `update_stock_state`, in order.
   */
  datatype Probe = Probe(available: bool, changed: bool, writes: seq<bool>)

  /**
   * The scan of one parsed page from card `i` on, in page order; `prev` is the
   * availability read at the start of the call.
   */
  function ScanFrom(prev: bool, cards: seq<Card>, i: nat): Probe
    requires i <= |cards|
    decreases |cards| - i
  {
    if i == |cards| then Probe(false, false, [false])
    else if Offered(cards[i]) then Probe(true, !prev, [true])
    else
      var rest := ScanFrom(prev, cards, i + 1);
      if Inspected(cards[i]) then rest.(writes := [false] + rest.writes) else rest
  }

  /** One card of the scan that does not end it: an inspected card contributes a `false` write. */
  lemma ScanFromStep(prev: bool, cards: seq<Card>, i: nat, done: seq<bool>)
    requires i < |cards| && !Offered(cards[i])
    ensures var p := ScanFrom(prev, cards, i);
      var q := ScanFrom(prev, cards, i + 1);
      var done' := if Inspected(cards[i]) then done + [false] else done;
      p.(writes := done + p.writes) == q.(writes := done' + q.writes)
  {
    if Inspected(cards[i]) {
      var q := ScanFrom(prev, cards, i + 1);
      assert done + ([false] + q.writes) == done + [false] + q.writes;
    }
  }

  function ScanPage(prev: bool, cards: seq<Card>): Probe {
    ScanFrom(prev, cards, 0)
  }

  /** The retry loop from attempt `i` on: only a timeout leads to another attempt. */
  function ProbeFrom(prev: bool, attempts: seq<Attempt>, i: nat): Probe
    requires |attempts| == MaxRetries && i < MaxRetries
    decreases MaxRetries - i
  {
    match attempts[i]
    case Timeout =>
      if i < MaxRetries - 1 then ProbeFrom(prev, attempts, i + 1) else Probe(false, prev, [false])
    case OtherError => Probe(false, prev, [false])
    case Page(cards) => ScanPage(prev, cards)
  }

  /** `check_stock` as a whole; a browser that fails to start ends the call like a failed load. */
  function CheckStockSpec(prev: bool, browserStarted: bool, attempts: seq<Attempt>): Probe
    requires |attempts| == MaxRetries
  {
    if !browserStarted then Probe(false, prev, [false]) else ProbeFrom(prev, attempts, 0)
  }

  /** The attempt that ends the retry loop: the first that did not time out, or the last one. */
  function Decisive(attempts: seq<Attempt>, i: nat): (k: nat)
    requires |attempts| == MaxRetries && i < MaxRetries
    ensures i <= k < MaxRetries
    ensures forall j :: i <= j < k ==> attempts[j].Timeout?
    ensures k < MaxRetries - 1 ==> !attempts[k].Timeout?
    decreases MaxRetries - i
  {
    if attempts[i].Timeout? && i < MaxRetries - 1 then Decisive(attempts, i + 1) else i
  }

  /** A page was loaded and it offers the product. */
  predicate OfferedOn(a: Attempt) {
    a.Page? && exists j :: 0 <= j < |a.cards| && Offered(a.cards[j])
  }

  /** A parsed page gives availability iff some matching card on it is purchasable. */
  lemma {:induction false} ScanFromAvailable(prev: bool, cards: seq<Card>, i: nat)
    requires i <= |cards|
    ensures ScanFrom(prev, cards, i).available <==> exists j :: i <= j < |cards| && Offered(cards[j])
    decreases |cards| - i
  {
    if i < |cards| && !Offered(cards[i]) {
      ScanFromAvailable(prev, cards, i + 1);
    }
  }

  /**
   * The scan of a page reports a change only when it finds the product
   * available after it was not; every write but the last is `false`, and the
   * last one is the availability returned.
   */
  lemma {:induction false} ScanFromWrites(prev: bool, cards: seq<Card>, i: nat)
    requires i <= |cards|
    ensures var r := ScanFrom(prev, cards, i);
      && (r.available ==> r.changed == !prev)
      && (!r.available ==> !r.changed)
      && |r.writes| >= 1 && r.writes[|r.writes| - 1] == r.available
      && (forall k :: 0 <= k < |r.writes| - 1 ==> !r.writes[k])
    decreases |cards| - i
  {
    if i < |cards| && !Offered(cards[i]) {
      ScanFromWrites(prev, cards, i + 1);
    }
  }

  /** The retry loop is decided by its decisive attempt alone. */
  lemma {:induction false} ProbeFromDecisive(prev: bool, attempts: seq<Attempt>, i: nat)
    requires |attempts| == MaxRetries && i < MaxRetries
    ensures ProbeFrom(prev, attempts, i) ==
      match attempts[Decisive(attempts, i)]
      case Page(cards) => ScanPage(prev, cards)
      case _ => Probe(false, prev, [false])
    decreases MaxRetries - i
  {
    if attempts[i].Timeout? && i < MaxRetries - 1 {
      ProbeFromDecisive(prev, attempts, i + 1);
    }
  }

  /**
   * The outcomes of a call, by how its retry loop ended (k is the last
   * attempt made, so k + 1 pages were requested, all but the last timing out):
   * available iff that attempt loaded a page that offers the product, and then
   * `changed` is `not prev`; a page without an offer gives `(False, False)`;
   * a final timeout, another error or a browser failure gives `(False, prev)`.
   * In every case the last write equals the availability returned.
   */
  lemma CheckStockFacts(prev: bool, browserStarted: bool, attempts: seq<Attempt>)
    requires |attempts| == MaxRetries
    ensures var p := CheckStockSpec(prev, browserStarted, attempts);
      var k := Decisive(attempts, 0);
      && (p.available <==> browserStarted && OfferedOn(attempts[k]))
      && (p.available ==> p.changed == !prev)
      && (browserStarted && attempts[k].Page? && !p.available ==> !p.changed)
      && (!browserStarted || !attempts[k].Page? ==> !p.available && p.changed == prev)
      && |p.writes| >= 1 && p.writes[|p.writes| - 1] == p.available
      && (forall j :: 0 <= j < |p.writes| - 1 ==> !p.writes[j])
  {
    if browserStarted {
      ProbeFromDecisive(prev, attempts, 0);
      var k := Decisive(attempts, 0);
      if attempts[k].Page? {
        ScanFromAvailable(prev, attempts[k].cards, 0);
        ScanFromWrites(prev, attempts[k].cards, 0);
      }
    }
  }

  /** `StockChecker`, which reads and writes availability through a `StateManager`. */
  class StockChecker {
    const sm: StateManager

    constructor (sm: StateManager)
      ensures this.sm == sm
    {
      this.sm := sm;
    }

    /**
     * `check_stock`. `fetches` counts the page loads requested: at most
     * `MaxRetries`, and more than one only after timeouts.
     */
    method CheckStock(browserStarted: bool, attempts: seq<Attempt>)
      returns (isAvailable: bool, stateChanged: bool, ghost fetches: nat)
      requires |attempts| == MaxRetries
      modifies sm.disk
      ensures var s := old(sm.Current());
        var p := CheckStockSpec(s.available, browserStarted, attempts);
        && isAvailable == p.available && stateChanged == p.changed
        && sm.disk.writes == old(sm.disk.writes) + Stamped(s, p.writes)
        && sm.disk.stateFile == Some(Save(s.(available := isAvailable)))
      ensures fetches == if browserStarted then Decisive(attempts, 0) + 1 else 0
    {
      ghost var s0 := sm.Current();
      var previous := sm.GetStockState();
      fetches := 0;
      if !browserStarted {
        var _ := sm.UpdateStockState(false);
        assert Stamped(s0, [false]) == [Save(s0.(available := false))];
        return false, previous, fetches;
      }
      var attempt := 0;
      while attempt < MaxRetries
        invariant attempt < MaxRetries
        invariant ProbeFrom(previous, attempts, attempt) == ProbeFrom(previous, attempts, 0)
        invariant Decisive(attempts, attempt) == Decisive(attempts, 0)
        invariant sm.disk.stateFile == old(sm.disk.stateFile) && sm.disk.writes == old(sm.disk.writes)
        decreases MaxRetries - attempt
      {
        fetches := attempt + 1;
        match attempts[attempt] {
          case Page(cards) =>
            isAvailable, stateChanged := ScanProducts(previous, cards);
            return isAvailable, stateChanged, fetches;
          case Timeout =>
            if attempt == MaxRetries - 1 {
              var _ := sm.UpdateStockState(false);
              assert Stamped(s0, [false]) == [Save(s0.(available := false))];
              return false, previous, fetches;
            }
          case OtherError =>
            var _ := sm.UpdateStockState(false);
            assert Stamped(s0, [false]) == [Save(s0.(available := false))];
            return false, previous, fetches;
        }
        attempt := attempt + 1;
      }
      // The block after the loop cannot be reached: the last attempt always returns.
      assert false;
    }

    /**
     * The part of `check_stock` that runs after a page was loaded and parsed:
     * the scan over the product cards and the final write when no card offers
     * the product.
     */
    method ScanProducts(previous: bool, cards: seq<Card>) returns (isAvailable: bool, stateChanged: bool)
      modifies sm.disk
      ensures var s := old(sm.Current());
        var p := ScanPage(previous, cards);
        && isAvailable == p.available && stateChanged == p.changed
        && sm.disk.writes == old(sm.disk.writes) + Stamped(s, p.writes)
        && sm.disk.stateFile == Some(Save(s.(available := isAvailable)))
    {
      ghost var s0 := sm.Current();
      var i := 0;
      ghost var done: seq<bool> := [];
      while i < |cards|
        invariant 0 <= i <= |cards|
        invariant ScanPage(previous, cards) == ScanFrom(previous, cards, i).(writes := done + ScanFrom(previous, cards, i).writes)
        invariant sm.Current().(available := s0.available) == s0
        invariant sm.disk.writes == old(sm.disk.writes) + Stamped(s0, done)
      {
        var inspected, available, changed := InspectCard(previous, cards[i], s0);
        if !available {
          ScanFromStep(previous, cards, i, done);
        }
        if inspected {
          StampedSnoc(old(sm.disk.writes), s0, done, available);
          done := done + [available];
          if available {
            assert ScanPage(previous, cards).writes == done;
            return available, changed;
          }
        }
        i := i + 1;
      }
      var _ := sm.UpdateStockState(false);
      StampedSnoc(old(sm.disk.writes), s0, done, false);
      assert ScanPage(previous, cards).writes == done + [false];
      return false, false;
    }

    /**
     * One turn of the scan: a card without a title is skipped; a card whose
     * title names the product and that has an `.item-operate` element has its
     * availability written to state.
     */
    method InspectCard(previous: bool, product: Card, ghost s0: State)
      returns (inspected: bool, available: bool, changed: bool)
      requires sm.Current().(available := s0.available) == s0
      modifies sm.disk
      ensures inspected == Inspected(product)
      ensures available == Offered(product)
      ensures changed == (available && !previous)
      ensures sm.Current().(available := s0.available) == s0
      ensures inspected ==>
        && sm.disk.stateFile == Some(Save(s0.(available := available)))
        && sm.disk.writes == old(sm.disk.writes) + [Save(s0.(available := available))]
      ensures !inspected ==> sm.disk.stateFile == old(sm.disk.stateFile) && sm.disk.writes == old(sm.disk.writes)
    {
      inspected, available, changed := false, false, false;
      if product.title.None? {
        return;
      }
      var title := Strip(product.title.value);
      if Contains(title, TargetGpu) {
        if product.operate.Some? {
          var text := Lower(Strip(product.operate.value));
          available := Contains(text, "add to cart") && !Contains(text, "out of stock");
          changed := available && !previous;
          var _ := sm.UpdateStockState(available);
          inspected := true;
        }
      }
    }
  }
}
