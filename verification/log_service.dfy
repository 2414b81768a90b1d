/** The bounded retention buffer of received webhooks
    (DidiWebhookReceiver/Services/WebhookLogService.cs).

    The service keeps its entries in a FIFO queue capped at `MaxEntries`.
    Here the queue is a value, `seq<Entry>`, front first: `Add` returns the
    next queue and `GetAll` returns a snapshot without producing a new queue,
    so a read cannot change the buffer. */
module LogService {
  import opened Options
  import opened Models

  /** One webhook delivery as retained: when it arrived (a `DateTime` held as
      ticks), the body exactly as read, and the payload when it parsed. */
  datatype Entry = Entry(receivedAt: int, rawBody: string, parsed: Option<Notification>)

  /** The retention cap of the queue. */
  const MaxEntries: nat := 100

  /** A buffer the service can be in: never above the cap. */
  predicate WithinCap(buffer: seq<Entry>)
  {
    |buffer| <= MaxEntries
  }

  /** Reference definition of what survives: the last `min(|q|, MaxEntries)`
      entries of `q`, in their original order. */
  function Latest(q: seq<Entry>): seq<Entry>
  {
    if |q| <= MaxEntries then q else q[|q| - MaxEntries..]
  }

  // ---------------------------------------------------------------------------
  // Add
  // ---------------------------------------------------------------------------

  /** The eviction loop of `Add`: while the queue holds more than the cap,
      dequeue its front. Run sequentially, `TryDequeue` succeeds whenever the
      count is above the cap, so the loop stops exactly at the cap. */
  function Evict(q: seq<Entry>): (r: seq<Entry>)
    ensures r == Latest(q)
    decreases |q|
  {
    if |q| > MaxEntries then Evict(q[1..]) else q
  }

  /** Enqueue `entry`, then evict from the front down to the cap. */
  function Add(buffer: seq<Entry>, entry: Entry): (next: seq<Entry>)
    ensures WithinCap(next)
    ensures |next| > 0 && next[|next| - 1] == entry
    ensures |buffer| < MaxEntries ==> next == buffer + [entry]
    ensures |buffer| >= MaxEntries ==> next == buffer[|buffer| - MaxEntries + 1..] + [entry]
    ensures |buffer| == MaxEntries ==> next == buffer[1..] + [entry]
  {
    var q := buffer + [entry];
    if |buffer| >= MaxEntries then
      assert q[|q| - MaxEntries..] == buffer[|buffer| - MaxEntries + 1..] + [entry];
      Evict(q)
    else
      Evict(q)
  }

  /** `Add` applied to each entry of `entries` in turn. */
  function AddAll(buffer: seq<Entry>, entries: seq<Entry>): seq<Entry>
    decreases |entries|
  {
    if |entries| == 0 then buffer else AddAll(Add(buffer, entries[0]), entries[1..])
  }

  /** Keeping the latest entries of a prefix and then of the whole is the same
      as keeping the latest entries of the whole. */
  lemma LatestAbsorbs(x: seq<Entry>, y: seq<Entry>)
    ensures Latest(Latest(x) + y) == Latest(x + y)
  {
    if |x| > MaxEntries && |y| == 0 {
      assert Latest(x) + y == Latest(x);
      assert x + y == x;
    } else if |x| > MaxEntries {
      var lx := x[|x| - MaxEntries..];
      assert |lx + y| > MaxEntries;
      assert (lx + y)[|lx + y| - MaxEntries..] == (x + y)[|x + y| - MaxEntries..];
    }
  }

  /** `Add` keeps the latest entries of the queue extended by one. */
  lemma AddIsLatest(buffer: seq<Entry>, entry: Entry)
    ensures Add(buffer, entry) == Latest(buffer + [entry])
  {
  }

  lemma AppendFront(buffer: seq<Entry>, entries: seq<Entry>)
    requires |entries| > 0
    ensures (buffer + [entries[0]]) + entries[1..] == buffer + entries
  {
    assert entries == [entries[0]] + entries[1..];
  }

  /** From any buffer within the cap, a run of adds leaves exactly the latest
      `MaxEntries` of all entries ever inserted, in insertion order. */
  lemma {:induction false} AddAllKeepsLatest(buffer: seq<Entry>, entries: seq<Entry>)
    requires WithinCap(buffer)
    ensures AddAll(buffer, entries) == Latest(buffer + entries)
    decreases |entries|
  {
    if |entries| == 0 {
      assert buffer + entries == buffer;
    } else {
      var e, rest := entries[0], entries[1..];
      var next := Add(buffer, e);
      assert AddAll(buffer, entries) == AddAll(next, rest);
      AddIsLatest(buffer, e);
      AddAllKeepsLatest(next, rest);
      LatestAbsorbs(buffer + [e], rest);
      AppendFront(buffer, entries);
    }
  }

  /** Starting empty, N adds leave the last min(N, 100) entries inserted. */
  lemma AddAllFromEmpty(entries: seq<Entry>)
    ensures |AddAll([], entries)| == if |entries| <= MaxEntries then |entries| else MaxEntries
    ensures |entries| <= MaxEntries ==> AddAll([], entries) == entries
    ensures |entries| > MaxEntries ==> AddAll([], entries) == entries[|entries| - MaxEntries..]
  {
    AddAllKeepsLatest([], entries);
    assert [] + entries == entries;
  }

  // ---------------------------------------------------------------------------
  // GetAll
  // ---------------------------------------------------------------------------

  /** Newest first: `receivedAt` never increases along the sequence. */
  predicate NewestFirst(s: seq<Entry>)
  {
    forall i, j :: 0 <= i < j < |s| ==> s[i].receivedAt >= s[j].receivedAt
  }

  /** The entries of `s` received at time `t`, in their order in `s`. */
  function StampedAt(s: seq<Entry>, t: int): seq<Entry>
    decreases |s|
  {
    if |s| == 0 then []
    else (if s[0].receivedAt == t then [s[0]] else []) + StampedAt(s[1..], t)
  }

  /** Place `x` before the first entry not newer than it. Since `x` came
      earlier in the input than everything already placed, this keeps ties in
      input order. */
  function Insert(x: Entry, sorted: seq<Entry>): seq<Entry>
    decreases |sorted|
  {
    if |sorted| == 0 || sorted[0].receivedAt <= x.receivedAt then [x] + sorted
    else [sorted[0]] + Insert(x, sorted[1..])
  }

  lemma {:induction false} InsertContents(x: Entry, sorted: seq<Entry>)
    ensures multiset(Insert(x, sorted)) == multiset(sorted) + multiset{x}
    decreases |sorted|
  {
    if |sorted| == 0 || sorted[0].receivedAt <= x.receivedAt {
    } else {
      InsertContents(x, sorted[1..]);
      assert sorted == [sorted[0]] + sorted[1..];
    }
  }

  lemma {:induction false} InsertKeepsOrder(x: Entry, sorted: seq<Entry>)
    requires NewestFirst(sorted)
    ensures NewestFirst(Insert(x, sorted))
    decreases |sorted|
  {
    if |sorted| == 0 || sorted[0].receivedAt <= x.receivedAt {
    } else {
      var rest := Insert(x, sorted[1..]);
      InsertKeepsOrder(x, sorted[1..]);
      InsertContents(x, sorted[1..]);
      forall k | 0 <= k < |rest|
        ensures sorted[0].receivedAt >= rest[k].receivedAt
      {
        assert rest[k] in multiset(rest);
        assert rest[k] in multiset(sorted[1..]) || rest[k] == x;
        if rest[k] != x {
          assert rest[k] in sorted[1..];
        }
      }
    }
  }

  /** The entries stamped `t` of a sequence with a known front. */
  lemma StampedAtCons(h: Entry, s: seq<Entry>, t: int)
    ensures StampedAt([h] + s, t) == (if h.receivedAt == t then [h] else []) + StampedAt(s, t)
  {
    assert ([h] + s)[1..] == s;
  }

  /** `Insert` places `x` ahead of every entry sharing its timestamp. */
  lemma {:induction false} InsertKeepsTies(x: Entry, sorted: seq<Entry>, t: int)
    ensures StampedAt(Insert(x, sorted), t)
            == (if x.receivedAt == t then [x] else []) + StampedAt(sorted, t)
    decreases |sorted|
  {
    if |sorted| == 0 || sorted[0].receivedAt <= x.receivedAt {
      StampedAtCons(x, sorted, t);
    } else {
      var head, rest := sorted[0], sorted[1..];
      InsertKeepsTies(x, rest, t);
      StampedAtCons(head, Insert(x, rest), t);
      StampedAtCons(head, rest, t);
      assert sorted == [head] + rest;
      // head is strictly newer than x, so at most one of them is stamped t
      assert head.receivedAt == t ==> x.receivedAt != t;
    }
  }

  /** Inserting the front of a queue into a snapshot of the rest of the
      queue gives a snapshot of the whole queue. */
  lemma InsertExtendsSnapshot(x: Entry, tail: seq<Entry>, rest: seq<Entry>)
    requires multiset(rest) == multiset(tail)
    requires NewestFirst(rest)
    requires forall t :: StampedAt(rest, t) == StampedAt(tail, t)
    ensures multiset(Insert(x, rest)) == multiset([x] + tail)
    ensures NewestFirst(Insert(x, rest))
    ensures forall t :: StampedAt(Insert(x, rest), t) == StampedAt([x] + tail, t)
  {
    InsertContents(x, rest);
    InsertKeepsOrder(x, rest);
    forall t ensures StampedAt(Insert(x, rest), t) == StampedAt([x] + tail, t) {
      InsertKeepsTies(x, rest, t);
      assert ([x] + tail)[1..] == tail;
    }
  }

  /** The snapshot of the buffer: `ToArray` followed by the stable
      `OrderByDescending(e => e.ReceivedAt)`, written as an insertion sort.
      It holds the same entries, newest first, and entries with the same
      timestamp keep their queue order. */
  function GetAll(buffer: seq<Entry>): (snapshot: seq<Entry>)
    ensures multiset(snapshot) == multiset(buffer)
    ensures NewestFirst(snapshot)
    ensures forall t :: StampedAt(snapshot, t) == StampedAt(buffer, t)
    decreases |buffer|
  {
    if |buffer| == 0 then []
    else
      var rest := GetAll(buffer[1..]);
      InsertExtendsSnapshot(buffer[0], buffer[1..], rest);
      assert buffer == [buffer[0]] + buffer[1..];
      Insert(buffer[0], rest)
  }

  lemma {:induction false} StampedAtMembers(s: seq<Entry>, t: int, e: Entry)
    requires e in StampedAt(s, t)
    ensures e in s && e.receivedAt == t
    decreases |s|
  {
    if |s| > 0 {
      if s[0].receivedAt == t && e == s[0] {
      } else {
        StampedAtMembers(s[1..], t, e);
      }
    }
  }

  lemma HeadIsStamped(s: seq<Entry>)
    requires |s| > 0
    ensures StampedAt(s, s[0].receivedAt) == [s[0]] + StampedAt(s[1..], s[0].receivedAt)
  {
  }

  /** Newest-first sequences that agree on every timestamp's entries start
      with the same entry: each head is stamped with the newest time of the
      other sequence, and is the first entry of that time in both. */
  lemma SameHead(a: seq<Entry>, b: seq<Entry>)
    requires |a| > 0 && |b| > 0
    requires NewestFirst(a) && NewestFirst(b)
    requires forall t :: StampedAt(a, t) == StampedAt(b, t)
    ensures a[0] == b[0]
  {
    var ta, tb := a[0].receivedAt, b[0].receivedAt;
    HeadIsStamped(a);
    HeadIsStamped(b);
    assert a[0] in StampedAt(b, ta);
    StampedAtMembers(b, ta, a[0]);
    var j :| 0 <= j < |b| && b[j] == a[0];
    assert tb >= ta;
    assert b[0] in StampedAt(a, tb);
    StampedAtMembers(a, tb, b[0]);
    var i :| 0 <= i < |a| && a[i] == b[0];
    assert ta >= tb;
    assert StampedAt(a, ta)[0] == a[0];
    assert StampedAt(b, tb)[0] == b[0];
  }

  /** Dropping a common head keeps the per-timestamp agreement. */
  lemma SameTails(a: seq<Entry>, b: seq<Entry>)
    requires |a| > 0 && |b| > 0 && a[0] == b[0]
    requires forall t :: StampedAt(a, t) == StampedAt(b, t)
    ensures forall t :: StampedAt(a[1..], t) == StampedAt(b[1..], t)
  {
    forall t ensures StampedAt(a[1..], t) == StampedAt(b[1..], t) {
      var h := if a[0].receivedAt == t then [a[0]] else [];
      assert StampedAt(a, t) == h + StampedAt(a[1..], t);
      assert StampedAt(b, t) == h + StampedAt(b[1..], t);
      assert StampedAt(a[1..], t) == (h + StampedAt(a[1..], t))[|h|..];
      assert StampedAt(b[1..], t) == (h + StampedAt(b[1..], t))[|h|..];
    }
  }

  /** Two newest-first orderings that agree on the order of every timestamp's
      entries are the same sequence: newest-first plus per-timestamp order
      leave no freedom. */
  lemma {:induction false} NewestFirstUnique(a: seq<Entry>, b: seq<Entry>)
    requires NewestFirst(a) && NewestFirst(b)
    requires forall t :: StampedAt(a, t) == StampedAt(b, t)
    ensures a == b
    decreases |a| + |b|
  {
    if |a| > 0 {
      HeadIsStamped(a);
    }
    if |b| > 0 {
      HeadIsStamped(b);
    }
    if |a| > 0 && |b| > 0 {
      SameHead(a, b);
      SameTails(a, b);
      NewestFirstUnique(a[1..], b[1..]);
      assert a == [a[0]] + a[1..];
      assert b == [b[0]] + b[1..];
    }
  }

  /** `GetAll` is the only newest-first arrangement of the buffer that keeps
      every timestamp's entries in queue order. */
  lemma GetAllIsTheStableOrder(buffer: seq<Entry>, snapshot: seq<Entry>)
    requires NewestFirst(snapshot)
    requires forall t :: StampedAt(snapshot, t) == StampedAt(buffer, t)
    ensures snapshot == GetAll(buffer)
  {
    NewestFirstUnique(snapshot, GetAll(buffer));
  }

  /** After more than `MaxEntries` adds from empty, a snapshot holds exactly
      the `MaxEntries` entries inserted last, whatever their timestamps. */
  lemma SnapshotAfterOverflow(entries: seq<Entry>)
    requires |entries| > MaxEntries
    ensures |GetAll(AddAll([], entries))| == MaxEntries
    ensures multiset(GetAll(AddAll([], entries))) == multiset(entries[|entries| - MaxEntries..])
  {
    AddAllFromEmpty(entries);
    var s := GetAll(AddAll([], entries));
    assert |s| == |multiset(s)|;
  }
}
