/** The endpoint table of a device (GetCreatePipe and ClosePipes of usbuart.c): a NULL-terminated array of pointers,
    grown by one for every new (endpoint, type) pair. */
module EndpointCache {

  /** An endpoint address, whose bit 7 is the direction (USB_DIR_IN), and a transfer type. */
  datatype Key = Key(endpoint: nat, kind: nat)
  {
    /** The address without its direction bit. */
    function Number(): nat { if endpoint / 0x80 % 2 == 1 then endpoint - 0x80 else endpoint }
  }

  /** One _KosPipe. `freed` stands for the memory manager's view of it. */
  class Pipe {
    var key: Key
    var hasPipe: bool
    var hasEvent: bool
    var freed: bool
    /** How often its event has been destroyed, and its pipe closed. */
    var destroyed: nat
    var closed: nat

    constructor ()
      ensures !hasPipe && !hasEvent && !freed && destroyed == closed == 0
    {
      key := Key(0, 0);
      hasPipe, hasEvent, freed, destroyed, closed := false, false, false, 0, 0;
    }

    /** What ClosePipes does to one entry. */
    method Release(present: bool)
      modifies this
      ensures key == old(key) && freed && !hasEvent
      ensures destroyed == old(destroyed) + if old(hasEvent) then 1 else 0
      ensures closed == old(closed) + if present && key.endpoint !in {0x00, 0x80} then 1 else 0
    {
      if present {
        if key.Number() != 0 {
          closed := closed + 1;
        }
        hasPipe := false;
      }
      if hasEvent {
        destroyed := destroyed + 1;
        hasEvent := false;
      }
      freed := true;
    }
  }

  /** Which of the kernel calls behind a creation succeed. */
  datatype Kernel = Kernel(tableMemory: bool, entryMemory: bool, pipe: bool, event: bool)
  {
    predicate AllSucceed() { tableMemory && entryMemory && pipe && event }
  }

  class Device {
    /** apPipes. */
    var table: array?<Pipe?>
    /** The entries, in the order of their creation. */
    ghost var entries: seq<Pipe>

    ghost predicate Valid()
      reads this, table, entries
    {
      && (table == null ==> entries == [])
      && (table != null ==> TableHolds(table[..], entries))
      && (forall i :: 0 <= i < |entries| ==> entries[i].hasPipe && entries[i].hasEvent && !entries[i].freed)
      && (forall i, j :: 0 <= i < j < |entries| ==> entries[i] != entries[j] && entries[i].key != entries[j].key)
    }

    ghost function Keys(): (keys: seq<Key>)
      reads this, entries
      ensures |keys| == |entries|
      ensures forall i :: 0 <= i < |keys| ==> keys[i] == entries[i].key
    {
      seq(|entries|, i requires 0 <= i < |entries| reads this, entries => entries[i].key)
    }

    constructor ()
      ensures Valid() && entries == []
    {
      table := null;
      entries := [];
    }

    /** The scan of GetCreatePipe: the entry with this key, or else the number of entries. */
    method Find(key: Key) returns (found: Pipe?, n: nat)
      requires Valid()
      ensures found != null ==> found in entries && found.key == key
      ensures found == null ==> key !in Keys() && n == |entries|
    {
      found, n := null, 0;
      if table != null {
        while table[n] != null
          invariant n <= |entries|
          invariant forall i :: 0 <= i < n ==> entries[i].key != key
          decreases |entries| - n
        {
          assert table[..][n] == entries[n];
          if table[n].key == key {
            return table[n], n;
          }
          n := n + 1;
        }
        assert table[..][n] == null;
      }
    }

    /** GetCreatePipe. A cached key gives the same entry again; a new key gives a new last entry.
        When a kernel call fails the map is unchanged, but only the two memory failures come back as NULL:
        after a failed open or event creation the result still points to the entry just freed. */
    method GetCreatePipe(key: Key, kernel: Kernel) returns (r: Pipe?)
      requires Valid()
      modifies this
      ensures Valid()
      ensures key in old(Keys()) ==> entries == old(entries) && table == old(table) && r in entries && r.key == key
      ensures key !in old(Keys()) && kernel.AllSucceed() ==>
        r != null && fresh(r) && entries == old(entries) + [r] && r.key == key
      ensures key !in old(Keys()) && !kernel.AllSucceed() ==>
        && entries == old(entries)
        && (r == null <==> !kernel.tableMemory || !kernel.entryMemory)
        && (r != null ==> fresh(r) && r.freed)
      ensures (r != null && r in entries) <==> key in old(Keys()) || kernel.AllSucceed()
      ensures Keys() == Inserted(old(Keys()), key, kernel.AllSucceed())
    {
      var endp, n := Find(key);
      if endp == null {
        endp := Create(key, n, kernel);
      }
      r := endp;
    }

    /** The creating half of GetCreatePipe: a table one longer than before, then the entry itself. */
    method Create(key: Key, n: nat, kernel: Kernel) returns (endp: Pipe?)
      requires Valid() && key !in Keys() && n == |entries|
      modifies this
      ensures Valid()
      ensures kernel.AllSucceed() ==> endp != null && fresh(endp) && entries == old(entries) + [endp] && endp.key == key
      ensures !kernel.AllSucceed() ==>
        && entries == old(entries)
        && (endp == null <==> !kernel.tableMemory || !kernel.entryMemory)
        && (endp != null ==> fresh(endp) && endp.freed)
    {
      endp := null;
      if kernel.tableMemory {
        GrowTable(n);
        if kernel.entryMemory {
          endp := new Pipe();
          table[n] := endp;
          if kernel.pipe {
            endp.hasPipe := true;
            endp.key := key;
            endp.hasEvent := kernel.event;
            if !endp.hasEvent {
              endp.freed := true;
              table[n] := null;
            }
          } else {
            endp.freed := true;
            table[n] := null;
          }
          if kernel.pipe && kernel.event {
            entries := entries + [endp];
          }
        }
      }
    }

    method GrowTable(n: nat)
      requires Valid() && n == |entries|
      modifies this`table
      ensures Valid() && table != null && fresh(table) && table.Length == n + 2
    {
      var grown := new Pipe?[n + 2](_ => null);
      if n > 0 {
        forall i | 0 <= i < n {
          grown[i] := table[i];
        }
      }
      assert forall i :: 0 <= i < n ==> table[..][i] == entries[i];
      table := grown;
    }

    /** ClosePipes: the event of every entry is destroyed once, every entry is freed, and the map is empty.
        Pipes are closed only while the device is present, and never those of endpoint 0. */
    method ClosePipes(present: bool)
      requires Valid()
      modifies this, table, entries
      ensures Valid() && entries == [] && table == null
      ensures forall p :: p in old(entries) ==>
        && p.freed && !p.hasEvent && p.destroyed == old(p.destroyed) + 1
        && p.closed == old(p.closed) + if present && p.key.endpoint !in {0x00, 0x80} then 1 else 0
    {
      if table != null {
        var i := 0;
        ghost var all := entries;
        while table[i] != null
          invariant table == old(table) && entries == all && i <= |all| < table.Length
          invariant forall k :: 0 <= k < table.Length ==> table[k] == if i <= k < |all| then all[k] else null
          invariant forall k :: 0 <= k < |all| ==>
            && all[k].key == old(all[k].key)
            && all[k].freed == (k < i) && all[k].hasEvent == (k >= i)
            && all[k].destroyed == old(all[k].destroyed) + (if k < i then 1 else 0)
            && all[k].closed == old(all[k].closed) + if k < i && present && all[k].key.endpoint !in {0x00, 0x80} then 1 else 0
          decreases |all| - i
        {
          var endp := table[i];
          endp.Release(present);
          table[i] := null;
          i := i + 1;
        }
      }
      table := null;
      entries := [];
    }
  }

  /** The array starts with the entries; everything behind them, at least one element, is NULL. */
  ghost predicate TableHolds(table: seq<Pipe?>, entries: seq<Pipe>) {
    && |entries| < |table|
    && forall i :: 0 <= i < |table| ==> table[i] == if i < |entries| then entries[i] else null
  }

  // ---------------------------------------------------------------- the map over any sequence of calls

  /** The keys after a request. */
  function Inserted(keys: seq<Key>, key: Key, created: bool): seq<Key> {
    if key in keys || !created then keys else keys + [key]
  }

  datatype Call = Get(key: Key, created: bool) | Close

  function Run(keys: seq<Key>, calls: seq<Call>): seq<Key>
    decreases |calls|
  {
    if calls == [] then keys
    else Run(if calls[0].Close? then [] else Inserted(keys, calls[0].key, calls[0].created), calls[1..])
  }

  ghost predicate Unique(keys: seq<Key>) {
    forall i, j :: 0 <= i < j < |keys| ==> keys[i] != keys[j]
  }

  lemma {:induction false} RunKeepsUnique(keys: seq<Key>, calls: seq<Call>)
    requires Unique(keys)
    ensures Unique(Run(keys, calls))
    decreases |calls|
  {
    if calls != [] {
      RunKeepsUnique(if calls[0].Close? then [] else Inserted(keys, calls[0].key, calls[0].created), calls[1..]);
    }
  }

  /** Between two closes entries are only ever added, at the end: a key once present keeps its place,
      and a key is new exactly if a successful creation asked for it. */
  lemma {:induction false} RunKeepsEntries(keys: seq<Key>, calls: seq<Call>)
    requires forall c :: c in calls ==> c.Get?
    ensures keys <= Run(keys, calls)
    ensures forall k :: k in Run(keys, calls) <==> k in keys || Get(k, true) in calls
    decreases |calls|
  {
    if calls != [] {
      var next := Inserted(keys, calls[0].key, calls[0].created);
      RunKeepsEntries(next, calls[1..]);
      assert forall k :: k in next <==> k in keys || Get(k, true) == calls[0];
      assert forall c :: c in calls <==> c == calls[0] || c in calls[1..];
    }
  }
}
