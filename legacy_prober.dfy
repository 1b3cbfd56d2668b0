/**
 * The older availability probe of src/stock_checker.py. It reads the state
 * file once, when the checker is created, and writes the file itself with a
 * two-key object, `available` and `last_checked`, instead of going through a
 * `StateManager`. The retry loop and the card scan are those of the newer
 * probe; only the results and the records written differ.
 *
 * `time.time()` is a clock reading supplied by the caller, the same for every
 * write of one call.
 */
module LegacyProber {
  import opened Wrappers
  import opened Text
  import opened Config
  import opened StateStore
  import opened Prober

  /** `{"available": False, "last_checked": None}`: what is assumed when there is no usable file. */
  const LegacyDefault: FileRecord := FileRecord(Some(false), None, None, Some(None))

  /** `load_previous_state`: the parsed object exactly as stored, without adding missing keys. */
  function PreviousRecord(file: Option<FileRecord>): (r: FileRecord)
    ensures file.None? ==> r == LegacyDefault
    ensures file.Some? ==> r == file.value
  {
    file.GetOr(LegacyDefault)
  }

  /** `previous_state.get("available", False)`. */
  function PreviousAvailable(r: FileRecord): bool {
    r.available.GetOr(false)
  }

  /**
   * Both checkers read the same availability from a file, although only the
   * `StateManager` fills in missing keys.
   */
  lemma PreviousAgreesWithLoad(file: Option<FileRecord>)
    ensures PreviousAvailable(PreviousRecord(file)) == Load(file).available
  {
  }

  /** The object `save_current_state` writes for `{"available": a, ...}` at clock reading `clock`. */
  function Stamp(available: bool, clock: int): FileRecord {
    FileRecord(Some(available), None, None, Some(Some(clock)))
  }

  /** The records written, in order, for a sequence of availability values. */
  function LegacyStamped(ws: seq<bool>, clock: int): (rs: seq<FileRecord>)
    ensures |rs| == |ws|
    ensures forall k :: 0 <= k < |ws| ==> rs[k] == Stamp(ws[k], clock)
    decreases |ws|
  {
    if ws == [] then [] else LegacyStamped(ws[..|ws| - 1], clock) + [Stamp(ws[|ws| - 1], clock)]
  }

  lemma LegacyStampedSnoc(log: seq<FileRecord>, ws: seq<bool>, w: bool, clock: int)
    ensures log + LegacyStamped(ws + [w], clock) == log + LegacyStamped(ws, clock) + [Stamp(w, clock)]
  {
    assert (ws + [w])[..|ws|] == ws;
  }

  /**
   * After this checker has written the file, a `StateManager` on the same file
   * sees no subscribers and no message cursor: the legacy save keeps only the
   * keys it writes.
   */
  lemma StampDropsSubscribers(available: bool, clock: int)
    ensures Load(Some(Stamp(available, clock))) == State(available, [], None, Some(Some(clock)))
    ensures PreviousRecord(Some(Stamp(available, clock))) == Stamp(available, clock)
  {
  }

  /** `check_stock` of this checker: `(available, available and not previous)`, so every negative path gives `(False, False)`. */
  function LegacyResult(prev: bool, attempts: seq<Attempt>): (bool, bool)
    requires |attempts| == MaxRetries
  {
    var p := ProbeFrom(prev, attempts, 0);
    (p.available, p.available && !prev)
  }

  /**
   * The outcomes of a call: available iff the decisive attempt loaded a page
   * that offers the product, and then "changed" is `not prev`; otherwise both
   * results are false. The last record written holds the availability returned.
   */
  lemma {:induction false} LegacyResultFacts(prev: bool, attempts: seq<Attempt>)
    requires |attempts| == MaxRetries
    ensures var r := LegacyResult(prev, attempts);
      var ws := ProbeFrom(prev, attempts, 0).writes;
      && (r.0 <==> OfferedOn(attempts[Decisive(attempts, 0)]))
      && (r.0 ==> r.1 == !prev)
      && (!r.0 ==> !r.1)
      && |ws| >= 1 && ws[|ws| - 1] == r.0
      && (forall j :: 0 <= j < |ws| - 1 ==> !ws[j])
  {
    CheckStockFacts(prev, true, attempts);
  }

  /** `StockChecker` of src/stock_checker.py. */
  class LegacyStockChecker {
    const disk: Disk
    /** `previous_state`: set when the checker is created and never refreshed afterwards. */
    var previousState: FileRecord

    constructor (disk: Disk)
      ensures this.disk == disk
      ensures previousState == PreviousRecord(disk.stateFile)
    {
      this.disk := disk;
      previousState := PreviousRecord(disk.stateFile);
    }

    method LoadPreviousState() returns (r: FileRecord)
      ensures r == PreviousRecord(disk.stateFile)
    {
      if disk.stateFile.None? {
        r := LegacyDefault;
      } else {
        r := disk.stateFile.value;
      }
    }

    /** `save_current_state`: stamps the object with the clock and overwrites the whole file with it. */
    method SaveCurrentState(state: FileRecord, clock: int)
      modifies disk
      ensures disk.stateFile == Some(state.(lastChecked := Some(Some(clock))))
      ensures disk.writes == old(disk.writes) + [state.(lastChecked := Some(Some(clock)))]
    {
      var stamped := state.(lastChecked := Some(Some(clock)));
      disk.Write(stamped);
    }

    /**
     * `check_stock`, once the browser is running. `previous_state` is read,
     * not reloaded, so a second call on the same checker compares against the
     * same stale value.
     */
    method CheckStock(attempts: seq<Attempt>, clock: int)
      returns (isAvailable: bool, stateChanged: bool, ghost fetches: nat)
      requires |attempts| == MaxRetries
      modifies disk
      ensures var p := ProbeFrom(PreviousAvailable(previousState), attempts, 0);
        && (isAvailable, stateChanged) == LegacyResult(PreviousAvailable(previousState), attempts)
        && disk.writes == old(disk.writes) + LegacyStamped(p.writes, clock)
        && disk.stateFile == Some(Stamp(isAvailable, clock))
      ensures fetches == Decisive(attempts, 0) + 1
      ensures previousState == old(previousState)
    {
      ghost var prev := PreviousAvailable(previousState);
      fetches := 0;
      var attempt := 0;
      while attempt < MaxRetries
        invariant attempt < MaxRetries
        invariant ProbeFrom(prev, attempts, attempt) == ProbeFrom(prev, attempts, 0)
        invariant Decisive(attempts, attempt) == Decisive(attempts, 0)
        invariant disk.stateFile == old(disk.stateFile) && disk.writes == old(disk.writes)
        decreases MaxRetries - attempt
      {
        fetches := attempt + 1;
        match attempts[attempt] {
          case Page(cards) =>
            isAvailable, stateChanged := ScanProducts(cards, clock);
            return isAvailable, stateChanged, fetches;
          case Timeout =>
            if attempt == MaxRetries - 1 {
              SaveCurrentState(FileRecord(Some(false), None, None, None), clock);
              assert LegacyStamped([false], clock) == [Stamp(false, clock)];
              return false, false, fetches;
            }
          case OtherError =>
            SaveCurrentState(FileRecord(Some(false), None, None, None), clock);
            assert LegacyStamped([false], clock) == [Stamp(false, clock)];
            return false, false, fetches;
        }
        attempt := attempt + 1;
      }
      // The block after the loop cannot be reached: the last attempt always returns.
      assert false;
    }

    /** The card scan of `check_stock` and the final write when no card offers the product. */
    method ScanProducts(cards: seq<Card>, clock: int) returns (isAvailable: bool, stateChanged: bool)
      modifies disk
      ensures var prev := PreviousAvailable(previousState);
        var p := ScanPage(prev, cards);
        && isAvailable == p.available && stateChanged == (p.available && !prev)
        && disk.writes == old(disk.writes) + LegacyStamped(p.writes, clock)
        && disk.stateFile == Some(Stamp(isAvailable, clock))
    {
      ghost var prev := PreviousAvailable(previousState);
      var i := 0;
      ghost var done: seq<bool> := [];
      while i < |cards|
        invariant 0 <= i <= |cards|
        invariant ScanPage(prev, cards) == ScanFrom(prev, cards, i).(writes := done + ScanFrom(prev, cards, i).writes)
        invariant disk.writes == old(disk.writes) + LegacyStamped(done, clock)
      {
        var inspected, available, changed := InspectCard(cards[i], clock);
        if !available {
          ScanFromStep(prev, cards, i, done);
        }
        if inspected {
          LegacyStampedSnoc(old(disk.writes), done, available, clock);
          done := done + [available];
          if available {
            assert ScanPage(prev, cards).writes == done;
            return available, changed;
          }
        }
        i := i + 1;
      }
      SaveCurrentState(FileRecord(Some(false), None, None, None), clock);
      LegacyStampedSnoc(old(disk.writes), done, false, clock);
      assert ScanPage(prev, cards).writes == done + [false];
      return false, false;
    }

    /** One card: a matching card with an `.item-operate` element has its availability saved. */
    method InspectCard(product: Card, clock: int) returns (inspected: bool, available: bool, changed: bool)
      modifies disk
      ensures inspected == Inspected(product)
      ensures available == Offered(product)
      ensures changed == (available && !PreviousAvailable(previousState))
      ensures inspected ==>
        && disk.stateFile == Some(Stamp(available, clock))
        && disk.writes == old(disk.writes) + [Stamp(available, clock)]
      ensures !inspected ==> disk.stateFile == old(disk.stateFile) && disk.writes == old(disk.writes)
    {
      inspected, available, changed := false, false, false;
      if product.title.None? {
        return;
      }
      var title := Strip(product.title.value);
      if Contains(title, TargetGpu) {
        if product.operate.Some? {
          var text := Lower(Strip(product.operate.value));
          available := Contains(text, "add to cart") && !Contains(text, "out of stock");
          var currentState := FileRecord(Some(available), None, None, Some(Some(clock)));
          changed := available && !previousState.available.GetOr(false);
          SaveCurrentState(currentState, clock);
          inspected := true;
        }
      }
    }
  }
}
