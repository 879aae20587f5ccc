/** The greedy, size-bounded grouping rule of `ProtocolHandler.batch_events`
    (pc-app/protocol.py): events are taken in order; an event joins the
    current batch unless the batch is non-empty and the event's packet
    length would push the batch's running size past the limit, in which
    case the batch is closed and the event opens the next one. */
module Batching {

  /** An event together with the length of the packet built for it. */
  datatype Sized<T> = Sized(item: T, size: nat)

  /** The loop state: the closed batches, the open one and its running size. */
  datatype Grouping<T> = Grouping(done: seq<seq<Sized<T>>>, current: seq<Sized<T>>, currentSize: int)

  function TotalSize<T>(batch: seq<Sized<T>>): nat
  {
    if batch == [] then 0 else TotalSize(batch[..|batch| - 1]) + batch[|batch| - 1].size
  }

  function Items<T>(batch: seq<Sized<T>>): (r: seq<T>)
    ensures |r| == |batch|
  {
    if batch == [] then [] else Items(batch[..|batch| - 1]) + [batch[|batch| - 1].item]
  }

  function Flatten<T>(batches: seq<seq<T>>): seq<T>
  {
    if batches == [] then [] else Flatten(batches[..|batches| - 1]) + batches[|batches| - 1]
  }

  /** One iteration of the loop. */
  function Admit<T>(g: Grouping<T>, e: Sized<T>, maxSize: int): Grouping<T>
  {
    if g.currentSize + e.size > maxSize && g.current != [] then
      Grouping(g.done + [g.current], [e], e.size)
    else
      Grouping(g.done, g.current + [e], g.currentSize + e.size)
  }

  /** The loop state after the given events. */
  function Group<T>(entries: seq<Sized<T>>, maxSize: int): Grouping<T>
  {
    if entries == [] then Grouping([], [], 0)
    else Admit(Group(entries[..|entries| - 1], maxSize), entries[|entries| - 1], maxSize)
  }

  /** The batches the loop emits: the closed ones, then the open one if any. */
  function Batches<T>(entries: seq<Sized<T>>, maxSize: int): seq<seq<Sized<T>>>
  {
    var g := Group(entries, maxSize);
    if g.current == [] then g.done else g.done + [g.current]
  }

  /** The batch that follows closed batch i. */
  function Following<T>(g: Grouping<T>, i: nat): seq<Sized<T>>
    requires i < |g.done|
  {
    if i + 1 < |g.done| then g.done[i + 1] else g.current
  }

  /** What holds of the loop state after any prefix of the events. */
  ghost predicate Invariant<T>(g: Grouping<T>, entries: seq<Sized<T>>, maxSize: int)
  {
    && Flatten(g.done) + g.current == entries
    && g.currentSize == TotalSize(g.current)
    && (g.current == [] ==> g.done == [])
    && (|g.current| >= 2 ==> TotalSize(g.current) <= maxSize)
    && (forall i :: 0 <= i < |g.done| ==> ClosedAt(g, i, maxSize))
  }

  /** Closed batch i is not empty, is within the limit when it holds two or
      more events, and was closed because the first event of the batch after
      it would have pushed it past the limit. */
  ghost predicate ClosedAt<T>(g: Grouping<T>, i: nat, maxSize: int)
    requires i < |g.done|
  {
    && g.done[i] != []
    && (|g.done[i]| >= 2 ==> TotalSize(g.done[i]) <= maxSize)
    && Following(g, i) != [] && TotalSize(g.done[i]) + Following(g, i)[0].size > maxSize
  }

  lemma FlattenSnoc<T>(batches: seq<seq<T>>, b: seq<T>)
    ensures Flatten(batches + [b]) == Flatten(batches) + b
  {
    assert (batches + [b])[..|batches|] == batches;
  }

  lemma TotalSizeSnoc<T>(batch: seq<Sized<T>>, e: Sized<T>)
    ensures TotalSize(batch + [e]) == TotalSize(batch) + e.size
  {
    assert (batch + [e])[..|batch|] == batch;
  }

  lemma ItemsSnoc<T>(batch: seq<Sized<T>>, e: Sized<T>)
    ensures Items(batch + [e]) == Items(batch) + [e.item]
  {
    assert (batch + [e])[..|batch|] == batch;
  }

  /** The loop state after one more event is that event admitted. */
  lemma GroupSnoc<T>(entries: seq<Sized<T>>, e: Sized<T>, maxSize: int)
    ensures Group(entries + [e], maxSize) == Admit(Group(entries, maxSize), e, maxSize)
  {
    assert (entries + [e])[..|entries|] == entries;
  }

  /** Admitting an event that does not fit closes the open batch, and the
      event opens the next; the invariant is kept. */
  lemma CloseKeepsInvariant<T>(g: Grouping<T>, entries: seq<Sized<T>>, e: Sized<T>, maxSize: int)
    requires Invariant(g, entries, maxSize)
    requires g.currentSize + e.size > maxSize && g.current != []
    ensures Invariant(Admit(g, e, maxSize), entries + [e], maxSize)
  {
    var g' := Grouping(g.done + [g.current], [e], e.size);
    assert Admit(g, e, maxSize) == g';
    FlattenSnoc(g.done, g.current);
    assert TotalSize([e]) == e.size by { TotalSizeSnoc([], e); }
    forall i | 0 <= i < |g'.done|
      ensures ClosedAt(g', i, maxSize)
    {
      if i < |g.done| {
        assert ClosedAt(g, i, maxSize);
        assert g'.done[i] == g.done[i] && Following(g', i) == Following(g, i);
      } else {
        assert g'.done[i] == g.current && Following(g', i) == [e];
      }
    }
  }

  /** Admitting an event that fits (or any event into an empty batch) adds
      it to the open batch; the invariant is kept. */
  lemma ExtendKeepsInvariant<T>(g: Grouping<T>, entries: seq<Sized<T>>, e: Sized<T>, maxSize: int)
    requires Invariant(g, entries, maxSize)
    requires !(g.currentSize + e.size > maxSize && g.current != [])
    ensures Invariant(Admit(g, e, maxSize), entries + [e], maxSize)
  {
    var g' := Grouping(g.done, g.current + [e], g.currentSize + e.size);
    assert Admit(g, e, maxSize) == g';
    TotalSizeSnoc(g.current, e);
    forall i | 0 <= i < |g'.done|
      ensures ClosedAt(g', i, maxSize)
    {
      assert ClosedAt(g, i, maxSize);
      if i + 1 == |g.done| {
        assert Following(g', i)[0] == Following(g, i)[0];
      } else {
        assert Following(g', i) == Following(g, i);
      }
    }
  }

  lemma {:induction false} GroupInvariant<T>(entries: seq<Sized<T>>, maxSize: int)
    ensures Invariant(Group(entries, maxSize), entries, maxSize)
  {
    if entries != [] {
      var prefix, last := entries[..|entries| - 1], entries[|entries| - 1];
      assert prefix + [last] == entries;
      GroupInvariant(prefix, maxSize);
      var g := Group(prefix, maxSize);
      if g.currentSize + last.size > maxSize && g.current != [] {
        CloseKeepsInvariant(g, prefix, last, maxSize);
      } else {
        ExtendKeepsInvariant(g, prefix, last, maxSize);
      }
    }
  }

  /** The loop state covers the events seen, in order, and has no closed
      batch while the open one is empty. */
  lemma GroupCovers<T>(entries: seq<Sized<T>>, maxSize: int)
    ensures Flatten(Group(entries, maxSize).done) + Group(entries, maxSize).current == entries
    ensures Group(entries, maxSize).current == [] ==> Group(entries, maxSize).done == []
  {
    GroupInvariant(entries, maxSize);
  }

  /** The properties of the grouping rule: every event lands in exactly one
      batch and the order is kept; no batch is empty and there are none for
      no events; a batch of two or more events stays within the limit; and a
      new batch is opened only because the next event would have pushed the
      previous batch past the limit. */
  lemma BatchesProperties<T>(entries: seq<Sized<T>>, maxSize: int)
    ensures Flatten(Batches(entries, maxSize)) == entries
    ensures Batches(entries, maxSize) == [] <==> entries == []
    ensures forall i :: 0 <= i < |Batches(entries, maxSize)| ==> Batches(entries, maxSize)[i] != []
    ensures forall i :: 0 <= i < |Batches(entries, maxSize)| && |Batches(entries, maxSize)[i]| >= 2 ==>
              TotalSize(Batches(entries, maxSize)[i]) <= maxSize
    ensures forall i :: 0 <= i < |Batches(entries, maxSize)| - 1 ==>
              TotalSize(Batches(entries, maxSize)[i]) + Batches(entries, maxSize)[i + 1][0].size > maxSize
  {
    var g := Group(entries, maxSize);
    GroupInvariant(entries, maxSize);
    var b: seq<seq<Sized<T>>> := Batches(entries, maxSize);
    if g.current != [] {
      FlattenSnoc(g.done, g.current);
    }
    forall i: int | 0 <= i < |b|
      ensures b[i] != [] && (|b[i]| >= 2 ==> TotalSize(b[i]) <= maxSize)
      ensures i < |b| - 1 ==> b[i + 1] != [] && TotalSize(b[i]) + b[i + 1][0].size > maxSize
    {
      if i < |g.done| {
        assert ClosedAt(g, i, maxSize);
        assert b[i] == g.done[i];
        if i < |b| - 1 {
          assert b[i + 1] == Following(g, i);
        }
      }
    }
  }
}
