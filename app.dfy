/**
 * The app's list of weeks: adding appends, deleting filters out every entry
 * equal to the deleted one on all five fields, and after every change the
 * list is written back to the store.
 */
module App {
  import opened Wrappers
  import opened Overtime
  import opened Storage

  /** The strict comparison of all five fields that deletion uses. */
  predicate SameEntry(w: WeekEntry, e: WeekEntry)
    ensures SameEntry(w, e) <==> w == e
  {
    w.year == e.year && w.week == e.week && w.hoursWorked == e.hoursWorked &&
    w.isHoliday == e.isHoliday && w.reduction == e.reduction
  }

  /** `[...prev, entry]`. */
  function Add(weeks: seq<WeekEntry>, entry: WeekEntry): (r: seq<WeekEntry>)
    ensures |r| == |weeks| + 1
    ensures r[..|weeks|] == weeks && r[|weeks|] == entry
  {
    weeks + [entry]
  }

  /** `prev.filter(w => !SameEntry(w, entry))`. */
  function Delete(weeks: seq<WeekEntry>, entry: WeekEntry): (r: seq<WeekEntry>)
    ensures forall w :: w in r ==> w in weeks && !SameEntry(w, entry)
    ensures (forall w :: w in weeks ==> !SameEntry(w, entry)) ==> r == weeks
  {
    if weeks == [] then []
    else if SameEntry(weeks[0], entry) then Delete(weeks[1..], entry)
    else
      assert weeks == [weeks[0]] + weeks[1..];
      [weeks[0]] + Delete(weeks[1..], entry)
  }

  /** a is obtained from b by dropping some of its elements, keeping the order of the rest. */
  predicate IsSubsequence(a: seq<WeekEntry>, b: seq<WeekEntry>)
    decreases |b|
  {
    if a == [] then true
    else if b == [] then false
    else if a[0] == b[0] then IsSubsequence(a[1..], b[1..])
    else IsSubsequence(a, b[1..])
  }

  lemma {:induction false} DeleteIsSubsequence(weeks: seq<WeekEntry>, entry: WeekEntry)
    ensures IsSubsequence(Delete(weeks, entry), weeks)
    decreases |weeks|
  {
    if weeks != [] {
      DeleteIsSubsequence(weeks[1..], entry);
      if SameEntry(weeks[0], entry) {
        SubsequenceOfTail(Delete(weeks[1..], entry), weeks);
      } else {
        var r := Delete(weeks, entry);
        assert r[0] == weeks[0] && r[1..] == Delete(weeks[1..], entry);
      }
    }
  }

  lemma {:induction false} SubsequenceOfTail(a: seq<WeekEntry>, b: seq<WeekEntry>)
    requires b != [] && IsSubsequence(a, b[1..])
    ensures IsSubsequence(a, b)
    decreases |b|, 1
  {
    if a != [] && a[0] == b[0] {
      SubsequenceDropFront(a, b[1..]);
    }
  }

  lemma {:induction false} SubsequenceDropFront(a: seq<WeekEntry>, b: seq<WeekEntry>)
    requires a != [] && IsSubsequence(a, b)
    ensures IsSubsequence(a[1..], b)
    decreases |b| + 1, 0
  {
    if b == [] {
    } else if a[0] == b[0] {
      SubsequenceOfTail(a[1..], b);
    } else {
      SubsequenceDropFront(a, b[1..]);
      SubsequenceOfTail(a[1..], b);
    }
  }

  /** Delete removes every copy of the entry and keeps every other entry as often as it occurred. */
  lemma {:induction false} DeleteMultiset(weeks: seq<WeekEntry>, entry: WeekEntry)
    ensures multiset(Delete(weeks, entry)) == multiset(weeks)[entry := 0]
    decreases |weeks|
  {
    if weeks != [] {
      var head, tail := weeks[0], weeks[1..];
      DeleteMultiset(tail, entry);
      assert weeks == [head] + tail;
      assert multiset(weeks) == multiset{head} + multiset(tail);
      ZeroAfterAdd(multiset(tail), head, entry);
      if !SameEntry(head, entry) {
        assert Delete(weeks, entry) == [head] + Delete(tail, entry);
        assert multiset(Delete(weeks, entry)) == multiset{head} + multiset(Delete(tail, entry));
      }
    }
  }

  /** Zeroing e in m plus one x: the x is dropped with the rest of e, or kept. */
  lemma ZeroAfterAdd(m: multiset<WeekEntry>, x: WeekEntry, e: WeekEntry)
    ensures x == e ==> (multiset{x} + m)[e := 0] == m[e := 0]
    ensures x != e ==> (multiset{x} + m)[e := 0] == multiset{x} + m[e := 0]
  {
  }

  /** Deleting twice is deleting once. */
  lemma DeleteIdempotent(weeks: seq<WeekEntry>, entry: WeekEntry)
    ensures Delete(Delete(weeks, entry), entry) == Delete(weeks, entry)
  {
  }

  /** Deletion works entry by entry, so it distributes over concatenation. */
  lemma {:induction false} DeleteAppend(a: seq<WeekEntry>, b: seq<WeekEntry>, entry: WeekEntry)
    ensures Delete(a + b, entry) == Delete(a, entry) + Delete(b, entry)
    decreases |a|
  {
    if a == [] {
      assert a + b == b;
    } else {
      assert (a + b)[0] == a[0] && (a + b)[1..] == a[1..] + b;
      DeleteAppend(a[1..], b, entry);
    }
  }

  /** Deleting what was just added removes its earlier copies too. */
  lemma DeleteAfterAdd(weeks: seq<WeekEntry>, entry: WeekEntry)
    ensures Delete(Add(weeks, entry), entry) == Delete(weeks, entry)
  {
    DeleteAppend(weeks, [entry], entry);
  }

  /**
   * Equality is strict: an entry stored without a reduction is not deleted by
   * the same entry with reduction 0, though both have the same overtime.
   */
  lemma MissingReductionIsNotZero()
    ensures var stored, shown := WeekEntry(2024, 1, 41.0, false, None), WeekEntry(2024, 1, 41.0, false, Some(0.0));
      WeekOvertime(stored) == WeekOvertime(shown) && Delete([stored], shown) == [stored]
  {
  }

  /** The app's state: the list of weeks, and the store it is saved to. */
  class App {
    var weeks: seq<WeekEntry>
    const store: LocalStorage
    const codec: Codec

    /** The effect has run: the store holds the current list. */
    ghost predicate Valid()
      reads this, store
    {
      STORAGE_KEY in store.items && store.items[STORAGE_KEY] == codec.encode(weeks)
    }

    /** `useState(() => loadWeeks())`, then the effect's first save. */
    constructor (store: LocalStorage, codec: Codec)
      modifies store
      ensures this.store == store && this.codec == codec
      ensures weeks == LoadFrom(old(store.items), codec)
      ensures store.items == old(store.items)[STORAGE_KEY := codec.encode(weeks)]
      ensures Valid()
    {
      var loaded := LoadWeeks(store, codec);
      this.store := store;
      this.codec := codec;
      weeks := loaded;
      new;
      SaveWeeks(store, codec, weeks);
    }

    /** `handleAdd(entry)` followed by the save. */
    method HandleAdd(entry: WeekEntry)
      modifies this, store
      ensures weeks == Add(old(weeks), entry)
      ensures store.items == old(store.items)[STORAGE_KEY := codec.encode(weeks)]
      ensures Valid()
    {
      weeks := Add(weeks, entry);
      SaveWeeks(store, codec, weeks);
    }

    /** `handleDelete(entry)` followed by the save. */
    method HandleDelete(entry: WeekEntry)
      modifies this, store
      ensures weeks == Delete(old(weeks), entry)
      ensures store.items == old(store.items)[STORAGE_KEY := codec.encode(weeks)]
      ensures Valid()
    {
      weeks := Delete(weeks, entry);
      SaveWeeks(store, codec, weeks);
    }
  }

  /** Once the state is saved, loading the store again gives back the current list. */
  lemma ReloadGivesWeeks(app: App)
    requires app.Valid() && RoundTrips(app.codec, app.weeks)
    ensures LoadWeeks(app.store, app.codec) == app.weeks
  {
    SaveThenLoad(app.store.items, app.codec, app.weeks);
    assert app.store.items[STORAGE_KEY := app.codec.encode(app.weeks)] == app.store.items;
  }
}
