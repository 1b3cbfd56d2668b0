/**
 * The durable state store of src/state_manager.py.
 *
 * The state file is a JSON object with the keys `available`, `subscribers`,
 * `last_message_date` and, when src/stock_checker.py wrote it last,
 * `last_checked`. Here the file is an `Option<FileRecord>`: `None` stands for
 * a file that is absent or cannot be parsed, and each key of a parsed object
 * may be missing. Every `StateManager` operation reloads the record, edits
 * the loaded copy and writes it back.
 */
module StateStore {
  import opened Wrappers

  /** A phone number, as the SMS transport gives it. */
  type Phone = string

  /**
   * The parsed state file. A key that is absent is `None`; `last_message_date`
   * and `last_checked` may also be present with the JSON value `null`, hence
   * the nested options.
   */
  datatype FileRecord = FileRecord(
    available: Option<bool>,
    subscribers: Option<seq<Phone>>,
    lastMessageDate: Option<Option<string>>,
    lastChecked: Option<Option<int>>)

  /**
   * The record `load_state` returns: the three keys of DEFAULT_STATE are always
   * there; `last_checked` is carried along exactly as it was in the file.
   */
  datatype State = State(
    available: bool,
    subscribers: seq<Phone>,
    lastMessageDate: Option<string>,
    lastChecked: Option<Option<int>>)

  /** `DEFAULT_STATE.copy()`. */
  const Default: State := State(false, [], None, None)

  /** `loaded` is the file's value for a key when present, and the default otherwise. */
  predicate Filled<T(==)>(present: Option<T>, loaded: T, default: T) {
    (present.Some? ==> loaded == present.value) && (present.None? ==> loaded == default)
  }

  /**
   * `load_state`: the default record for an absent or unreadable file;
   * otherwise the parsed object with each missing key of DEFAULT_STATE added.
   */
  function Load(file: Option<FileRecord>): (s: State)
    ensures file.None? ==> s == Default
    ensures file.Some? ==>
      && Filled(file.value.available, s.available, Default.available)
      && Filled(file.value.subscribers, s.subscribers, Default.subscribers)
      && Filled(file.value.lastMessageDate, s.lastMessageDate, Default.lastMessageDate)
      && s.lastChecked == file.value.lastChecked
  {
    match file
    case None => Default
    case Some(f) =>
      State(f.available.GetOr(false), f.subscribers.GetOr([]), f.lastMessageDate.GetOr(None), f.lastChecked)
  }

  /** `save_state`: the JSON object written for a loaded record. */
  function Save(s: State): FileRecord {
    FileRecord(Some(s.available), Some(s.subscribers), Some(s.lastMessageDate), s.lastChecked)
  }

  /** The file holds every key that DEFAULT_STATE defines. */
  predicate Complete(f: FileRecord) {
    f.available.Some? && f.subscribers.Some? && f.lastMessageDate.Some?
  }

  /** Saving a record and loading it back gives the record; what is saved is complete. */
  lemma SaveThenLoad(s: State)
    ensures Complete(Save(s))
    ensures Load(Some(Save(s))) == s
  {
  }

  /** A complete file is loaded without change: saving what was loaded rewrites the same object. */
  lemma LoadThenSave(f: FileRecord)
    requires Complete(f)
    ensures Save(Load(Some(f))) == f
  {
  }

  /** `get_last_message_date`: the stored cursor, or one hour ago in UTC when there is none. */
  function Cursor(s: State, utcHourAgo: string): (date: string)
    ensures s.lastMessageDate.Some? ==> date == s.lastMessageDate.value
    ensures s.lastMessageDate.None? ==>
      |date| >= 6 && date[..|date| - 6] == utcHourAgo && date[|date| - 6..] == "+00:00"
  {
    if s.lastMessageDate.None? then utcHourAgo + "+00:00" else s.lastMessageDate.value
  }

  /** The list holds every number at most once. */
  predicate NoDuplicates(subs: seq<Phone>) {
    forall i, j :: 0 <= i < j < |subs| ==> subs[i] != subs[j]
  }

  /** The subscriber list after `add_subscriber(p)`: appended at the end when absent. */
  function WithSubscriber(subs: seq<Phone>, p: Phone): seq<Phone> {
    if p in subs then subs else subs + [p]
  }

  /** Adding a number keeps the list duplicate-free and makes exactly that number a member. */
  lemma {:induction false} WithSubscriberProperties(subs: seq<Phone>, p: Phone)
    ensures forall x :: x in WithSubscriber(subs, p) <==> x in subs || x == p
    ensures NoDuplicates(subs) ==> NoDuplicates(WithSubscriber(subs, p))
    ensures WithSubscriber(WithSubscriber(subs, p), p) == WithSubscriber(subs, p)
  {
    var r := WithSubscriber(subs, p);
    forall x ensures x in r <==> x in subs || x == p {
      if p !in subs && x in r {
        var k :| 0 <= k < |r| && r[k] == x;
        if k < |subs| { assert subs[k] == x; }
      }
    }
    if NoDuplicates(subs) && p !in subs {
      forall i, j | 0 <= i < j < |r| ensures r[i] != r[j] {
        if j == |subs| { assert r[i] == subs[i]; } else { assert r[i] == subs[i] && r[j] == subs[j]; }
      }
    }
  }

  /** Position of the first occurrence of `p`. */
  function IndexOf(subs: seq<Phone>, p: Phone): (i: nat)
    requires p in subs
    ensures i < |subs| && subs[i] == p
    ensures forall j :: 0 <= j < i ==> subs[j] != p
  {
    if subs[0] == p then 0 else 1 + IndexOf(subs[1..], p)
  }

  /** Python's `list.remove(p)` on a list that contains `p`, or the list itself otherwise. */
  function RemoveFirst(subs: seq<Phone>, p: Phone): seq<Phone> {
    if subs == [] then []
    else if subs[0] == p then subs[1..]
    else [subs[0]] + RemoveFirst(subs[1..], p)
  }

  /** Only the first occurrence is removed; an absent number leaves the list as it is. */
  lemma {:induction false} RemoveFirstSplits(subs: seq<Phone>, p: Phone)
    ensures p !in subs ==> RemoveFirst(subs, p) == subs
    ensures p in subs ==>
      var i := IndexOf(subs, p); RemoveFirst(subs, p) == subs[..i] + subs[i + 1..]
  {
    if subs != [] && subs[0] != p {
      RemoveFirstSplits(subs[1..], p);
      if p in subs {
        assert p in subs[1..];
        var i := IndexOf(subs[1..], p);
        assert subs[..i + 1] == [subs[0]] + subs[1..][..i];
        assert subs[i + 2..] == subs[1..][i + 1..];
      } else {
        assert subs == [subs[0]] + subs[1..];
      }
    }
  }

  /** Removing takes exactly one copy of `p` out of the multiset of subscribers, if there is one. */
  lemma {:induction false} RemoveFirstMultiset(subs: seq<Phone>, p: Phone)
    ensures multiset(RemoveFirst(subs, p)) == multiset(subs) - multiset{p}
  {
    if subs != [] {
      assert subs == [subs[0]] + subs[1..];
      assert multiset(subs) == multiset{subs[0]} + multiset(subs[1..]);
      if subs[0] != p {
        RemoveFirstMultiset(subs[1..], p);
        assert multiset(RemoveFirst(subs, p)) == multiset{subs[0]} + multiset(RemoveFirst(subs[1..], p));
      }
    }
  }

  /** On a duplicate-free list, removal makes `p` absent and keeps every other number. */
  lemma {:induction false} RemoveFirstNoDuplicates(subs: seq<Phone>, p: Phone)
    requires NoDuplicates(subs)
    ensures NoDuplicates(RemoveFirst(subs, p))
    ensures forall x :: x in RemoveFirst(subs, p) <==> x in subs && x != p
  {
    RemoveFirstSplits(subs, p);
    if p in subs {
      var i := IndexOf(subs, p);
      var r := subs[..i] + subs[i + 1..];
      assert forall a :: 0 <= a < |r| ==> r[a] == subs[if a < i then a else a + 1];
      forall x ensures x in r <==> x in subs && x != p {
        if x in r {
          var a :| 0 <= a < |r| && r[a] == x;
          assert subs[if a < i then a else a + 1] == x;
        }
        if x in subs && x != p {
          var k :| 0 <= k < |subs| && subs[k] == x;
          assert r[if k < i then k else k - 1] == x;
        }
      }
    }
  }

  /** The records written, in order, by a run of `update_stock_state` calls on top of `s`. */
  function Stamped(s: State, ws: seq<bool>): seq<FileRecord>
    decreases |ws|
  {
    if ws == [] then [] else Stamped(s, ws[..|ws| - 1]) + [Save(s.(available := ws[|ws| - 1]))]
  }

  /** One more `update_stock_state` call extends a log of such writes by one record. */
  lemma StampedSnoc(log: seq<FileRecord>, s: State, ws: seq<bool>, w: bool)
    ensures log + Stamped(s, ws + [w]) == log + Stamped(s, ws) + [Save(s.(available := w))]
  {
    assert (ws + [w])[..|ws|] == ws;
  }

  /**
   * The state file. Writes always succeed; `writes` records, in order, every
   * object that was written to it.
   */
  class Disk {
    var stateFile: Option<FileRecord>
    ghost var writes: seq<FileRecord>

    constructor (initial: Option<FileRecord>)
      ensures stateFile == initial && writes == []
    {
      stateFile := initial;
      writes := [];
    }

    /** Replaces the whole file with `r` (`open(path, 'w')` then `json.dump`). */
    method Write(r: FileRecord)
      modifies this
      ensures stateFile == Some(r) && writes == old(writes) + [r]
    {
      stateFile := Some(r);
      writes := writes + [r];
    }
  }

  /** `StateManager`: every operation reloads the file, edits the copy and writes it back. */
  class StateManager {
    const disk: Disk

    constructor (disk: Disk)
      ensures this.disk == disk
    {
      this.disk := disk;
    }

    /** What `load_state` would return now. */
    function Current(): State
      reads disk
    {
      Load(disk.stateFile)
    }

    method LoadState() returns (s: State)
      ensures s == Load(disk.stateFile)
    {
      s := Load(disk.stateFile);
    }

    method SaveState(s: State)
      modifies disk
      ensures disk.stateFile == Some(Save(s)) && disk.writes == old(disk.writes) + [Save(s)]
      ensures Current() == s
    {
      disk.Write(Save(s));
    }

    /**
     * `update_stock_state`: sets `available` and nothing else, and reports a
     * change in either direction.
     */
    method UpdateStockState(available: bool) returns (changed: bool)
      modifies disk
      ensures changed == (available != old(Current()).available)
      ensures disk.stateFile == Some(Save(old(Current()).(available := available)))
      ensures disk.writes == old(disk.writes) + [Save(old(Current()).(available := available))]
      ensures Current() == old(Current()).(available := available)
    {
      var state := LoadState();
      var previous := state.available;
      changed := available != previous;
      state := state.(available := available);
      SaveState(state);
    }

    method GetStockState() returns (available: bool)
      ensures available == Current().available
    {
      var state := LoadState();
      available := state.available;
    }

    /**
     * `add_subscriber`: true iff the number was absent, in which case it is
     * appended and the file written; otherwise the file is not touched.
     */
    method AddSubscriber(p: Phone) returns (added: bool)
      modifies disk
      ensures added == (p !in old(Current()).subscribers)
      ensures added ==>
        var s := old(Current());
        disk.stateFile == Some(Save(s.(subscribers := s.subscribers + [p])))
        && disk.writes == old(disk.writes) + [Save(s.(subscribers := s.subscribers + [p]))]
      ensures !added ==> disk.stateFile == old(disk.stateFile) && disk.writes == old(disk.writes)
      ensures Current() == old(Current()).(subscribers := WithSubscriber(old(Current()).subscribers, p))
    {
      var state := LoadState();
      if p !in state.subscribers {
        state := state.(subscribers := state.subscribers + [p]);
        SaveState(state);
        added := true;
      } else {
        added := false;
      }
    }

    /**
     * `remove_subscriber`: true iff the number was present, in which case its
     * first occurrence is removed and the file written; otherwise the file is
     * not touched.
     */
    method RemoveSubscriber(p: Phone) returns (removed: bool)
      modifies disk
      ensures removed == (p in old(Current()).subscribers)
      ensures removed ==>
        var s := old(Current());
        disk.stateFile == Some(Save(s.(subscribers := RemoveFirst(s.subscribers, p))))
        && disk.writes == old(disk.writes) + [Save(s.(subscribers := RemoveFirst(s.subscribers, p)))]
      ensures !removed ==> disk.stateFile == old(disk.stateFile) && disk.writes == old(disk.writes)
      ensures Current() == old(Current()).(subscribers := RemoveFirst(old(Current()).subscribers, p))
    {
      var state := LoadState();
      if p in state.subscribers {
        state := state.(subscribers := RemoveFirst(state.subscribers, p));
        SaveState(state);
        removed := true;
      } else {
        RemoveFirstSplits(state.subscribers, p);
        removed := false;
      }
    }

    method GetSubscribers() returns (subs: seq<Phone>)
      ensures subs == Current().subscribers
    {
      var state := LoadState();
      subs := state.subscribers;
    }

    /** `update_last_message_date`: overwrites the cursor and nothing else. */
    method UpdateLastMessageDate(date: string)
      modifies disk
      ensures disk.stateFile == Some(Save(old(Current()).(lastMessageDate := Some(date))))
      ensures disk.writes == old(disk.writes) + [Save(old(Current()).(lastMessageDate := Some(date)))]
      ensures Current() == old(Current()).(lastMessageDate := Some(date))
    {
      var state := LoadState();
      state := state.(lastMessageDate := Some(date));
      SaveState(state);
    }

    /**
     * `get_last_message_date`; `utcHourAgo` is the ISO text of the naive UTC
     * time one hour ago, which the clock would supply.
     */
    method GetLastMessageDate(utcHourAgo: string) returns (date: string)
      ensures date == Cursor(Current(), utcHourAgo)
    {
      var state := LoadState();
      if state.lastMessageDate.None? {
        date := utcHourAgo + "+00:00";
      } else {
        date := state.lastMessageDate.value;
      }
    }
  }
}
