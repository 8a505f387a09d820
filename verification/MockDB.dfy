/** The two maps of db.go are the table of Database. */
module MockDB {

  import opened Basics
  import opened Like
  import opened Database

  datatype Entry = Entry(id: int, user: int, key: Bytes, created: int, updated: int, value: Value, expires: Option<int>)

  /** What a query gives back of an entry. */
  datatype Found = Found(place: Place, id: int, value: Value)

  function RowOf(e: Entry, num: Num): Row {
    Row(e.id, e.created, e.updated, e.value, num, e.expires)
  }

  function ItemOf(st: Store, p: Place): Item
    requires p in st.table
  {
    Item(st.table[p].num, st.table[p].id, p)
  }

  /** The rows a query looks at before it matches keys. */
  predicate Candidate(st: Store, user: Option<int>, expiredToo: bool, now: int, p: Place) {
    p in st.table && (user.Some? ==> p.0 == user.value) && (expiredToo || !Expired(st.table[p], now))
  }

  function Judgement(pattern: Option<Bytes>, key: Bytes): Like.Verdict {
    if pattern.None? then LikeTrue else Judge(key, pattern.value)
  }

  /** A query fails whole when matching any candidate's key reaches a trailing escape. */
  ghost predicate Fails(st: Store, user: Option<int>, pattern: Option<Bytes>, expiredToo: bool, now: int) {
    exists p :: Candidate(st, user, expiredToo, now, p) && Judgement(pattern, p.1) == ErrLikeEscape
  }

  ghost function Selected(st: Store, user: Option<int>, pattern: Option<Bytes>, expiredToo: bool, now: int): set<Item> {
    set p | p in st.table && Candidate(st, user, expiredToo, now, p) && Judgement(pattern, p.1) == LikeTrue
      :: ItemOf(st, p)
  }

  lemma SelectedDistinct(st: Store, user: Option<int>, pattern: Option<Bytes>, expiredToo: bool, now: int)
    requires Sound(st)
    ensures DistinctIDs(Selected(st, user, pattern, expiredToo, now))
    ensures DistinctPlaces(Selected(st, user, pattern, expiredToo, now))
  {
  }

  // ---------------------------------------------------------------- sorting

  function Insert(x: Item, r: seq<Item>, order: Order): seq<Item> {
    if r == [] || Before(order, x, r[0]) then [x] + r else [r[0]] + Insert(x, r[1..], order)
  }

  /** What sort.Slice makes of a list: the order leaves it no choice. */
  function Sorted(results: seq<Item>, order: Order): seq<Item> {
    if results == [] then [] else Insert(results[0], Sorted(results[1..], order), order)
  }

  lemma InsertFront(x: Item, r: seq<Item>, items: set<Item>, order: Order)
    requires Arranges(r, items, order) && x !in items && DistinctIDs(items + {x})
    requires r == [] || Before(order, x, r[0])
    ensures Arranges([x] + r, items + {x}, order)
  {
    hide Before;
    var s := [x] + r;
    assert forall y :: y in s <==> y == x || y in r;
    assert forall i :: 0 <= i < |r| ==> r[i] in items;
    forall i, j | 0 <= i < j < |s| ensures s[i] != s[j] && Before(order, s[i], s[j]) {
      if i == 0 && j > 1 {
        BeforeThrough(order, x, r[0], r[j - 1]);
      }
    }
  }

  lemma InsertBehind(x: Item, r: seq<Item>, t: seq<Item>, items: set<Item>, order: Order)
    requires Arranges(r, items, order) && x !in items && r != [] && Before(order, r[0], x)
    requires Arranges(t, items - {r[0]} + {x}, order)
    ensures Arranges([r[0]] + t, items + {x}, order)
  {
    hide Before;
    var s := [r[0]] + t;
    assert r[0] in r;
    forall y ensures y in s <==> y in items + {x} {
      assert y in s <==> y == r[0] || y in t;
    }
    forall i, j | 0 <= i < j < |s| ensures s[i] != s[j] && Before(order, s[i], s[j]) {
      if i == 0 {
        assert s[j] == t[j - 1] && t[j - 1] in t;
        FirstBefore(r, items, order, s[j], x);
      } else {
        assert s[i] == t[i - 1] && s[j] == t[j - 1];
      }
    }
  }

  lemma {:induction false} InsertArranges(x: Item, r: seq<Item>, items: set<Item>, order: Order)
    requires Arranges(r, items, order) && x !in items && DistinctIDs(items + {x})
    ensures Arranges(Insert(x, r, order), items + {x}, order)
    decreases |r|
  {
    hide Before, Arranges;
    if r == [] || Before(order, x, r[0]) {
      InsertFront(x, r, items, order);
    } else {
      RestArranges(r, items, order);
      ArrangesMembers(r, items, order);
      InsertArranges(x, r[1..], items - {r[0]}, order);
      Asymmetric(order, x, r[0]);
      InsertBehind(x, r, Insert(x, r[1..], order), items, order);
    }
  }

  lemma BeforeThrough(order: Order, a: Item, b: Item, c: Item)
    requires a.id != b.id && b.id != c.id && a.id != c.id && Before(order, a, b) && Before(order, b, c)
    ensures Before(order, a, c)
  {
    OrderIsTotal(order, a, b, c);
  }

  lemma FirstBefore(r: seq<Item>, items: set<Item>, order: Order, y: Item, x: Item)
    requires Arranges(r, items, order) && r != [] && (y == x || y in items - {r[0]})
    requires x !in items && Before(order, r[0], x)
    ensures r[0] != y && Before(order, r[0], y)
  {
    assert r[0] in r;
    if y != x {
      FirstIsLeast(r, items, order, y);
    }
  }

  lemma {:induction false} SortedArranges(results: seq<Item>, items: set<Item>, order: Order)
    requires DistinctIDs(items) && (forall x :: x in results <==> x in items)
    requires forall i, j :: 0 <= i < j < |results| ==> results[i] != results[j]
    ensures Arranges(Sorted(results, order), items, order)
    decreases |results|
  {
    if results != [] {
      var x, rest := results[0], results[1..];
      forall y ensures y in rest <==> y in items - {x} {
        assert y in results <==> y == x || y in rest;
      }
      assert x in results;
      SortedArranges(rest, items - {x}, order);
      InsertArranges(x, Sorted(rest, order), items - {x}, order);
      assert items - {x} + {x} == items;
    }
  }

  // ---------------------------------------------------------------- the database

  /** One entry under its composite key is its row. */
  ghost predicate Holds(entries: map<Bytes, Entry>, valueNums: map<Bytes, Num>, table: map<Place, Row>, c: Bytes)
    requires c in entries && c in valueNums
  {
    var e := entries[c];
    c == MakeKey(e.user, e.key) && (e.user, e.key) in table && table[(e.user, e.key)] == RowOf(e, valueNums[c])
  }

  /** Both maps keep the same keys and hold the rows of the table, no more and no less. */
  ghost predicate Agree(entries: map<Bytes, Entry>, valueNums: map<Bytes, Num>, table: map<Place, Row>) {
    && entries.Keys == valueNums.Keys
    && (forall c :: c in entries ==> Holds(entries, valueNums, table, c))
    && (forall p :: p in table ==> MakeKey(p.0, p.1) in entries)
  }

  /** The entry under a composite key is the row of that user and key. */
  lemma Find(entries: map<Bytes, Entry>, valueNums: map<Bytes, Num>, table: map<Place, Row>, user: int, key: Bytes)
    requires Agree(entries, valueNums, table)
    ensures entries.Keys == valueNums.Keys
    ensures var c := MakeKey(user, key);
            && (c in entries <==> (user, key) in table)
            && (c in entries ==> entries[c].user == user && entries[c].key == key)
            && (c in entries ==> table[(user, key)] == RowOf(entries[c], valueNums[c]))
  {
    hide MakeKey;
    var c := MakeKey(user, key);
    if c in entries {
      assert Holds(entries, valueNums, table, c);
      MakeKeyInjective(entries[c].user, entries[c].key, user, key);
    }
    if (user, key) in table {
      assert MakeKey((user, key).0, (user, key).1) in entries;
    }
  }

  /** Different composite keys are different places. */
  lemma KeysApart(entries: map<Bytes, Entry>, valueNums: map<Bytes, Num>, table: map<Place, Row>, c: Bytes, d: Bytes)
    requires Agree(entries, valueNums, table) && c in entries && d in entries
    ensures entries.Keys == valueNums.Keys
    ensures (entries[c].user, entries[c].key) == (entries[d].user, entries[d].key) ==> c == d
    ensures Holds(entries, valueNums, table, c)
  {
    hide MakeKey;
    assert Holds(entries, valueNums, table, c) && Holds(entries, valueNums, table, d);
  }

  lemma PutAgrees(entries: map<Bytes, Entry>, valueNums: map<Bytes, Num>, table: map<Place, Row>, e: Entry, num: Num)
    requires Agree(entries, valueNums, table)
    ensures var c := MakeKey(e.user, e.key);
            Agree(entries[c := e], valueNums[c := num], table[(e.user, e.key) := RowOf(e, num)])
  {
    hide MakeKey, RowOf;
    var c, p := MakeKey(e.user, e.key), (e.user, e.key);
    var entries', nums', table' := entries[c := e], valueNums[c := num], table[p := RowOf(e, num)];
    forall d | d in entries' ensures Holds(entries', nums', table', d) {
      if d != c {
        assert Holds(entries, valueNums, table, d);
      }
    }
    forall q | q in table' ensures MakeKey(q.0, q.1) in entries' {
      if q != p {
        assert q in table;
      }
    }
  }

  lemma RemoveAgrees(entries: map<Bytes, Entry>, valueNums: map<Bytes, Num>, table: map<Place, Row>, user: int,
                     key: Bytes)
    requires Agree(entries, valueNums, table)
    ensures Agree(entries - {MakeKey(user, key)}, valueNums - {MakeKey(user, key)}, table - {(user, key)})
  {
    hide MakeKey, RowOf;
    var c, p := MakeKey(user, key), (user, key);
    var entries', nums', table' := entries - {c}, valueNums - {c}, table - {p};
    forall d | d in entries' ensures Holds(entries', nums', table', d) {
      assert Holds(entries, valueNums, table, d);
    }
    forall q | q in table' ensures MakeKey(q.0, q.1) in entries' {
      assert q in table && q != p && q == (q.0, q.1);
      MakeKeyInjective(q.0, q.1, user, key);
    }
  }

  /** The places of a user's rows with an ID. */
  ghost function WithID(table: map<Place, Row>, user: int, id: int): set<Place> {
    set p | p in table && p.0 == user && table[p].id == id
  }

  lemma OneWithID(st: Store, p: Place, id: int)
    requires Sound(st) && p in st.table && st.table[p].id == id
    ensures WithID(st.table, p.0, id) == {p}
  {
  }

  lemma NoneWithID(table: map<Place, Row>, user: int, id: int)
    requires forall p :: p in table ==> !(p.0 == user && table[p].id == id)
    ensures WithID(table, user, id) == {} && table - WithID(table, user, id) == table
  {
  }

  /** A list that holds a row of the table for each place of the user, or of anyone, whose key matches the
      pattern, or any key, and which has not expired unless expired ones are wanted. */
  ghost predicate Finds(st: Store, user: Option<int>, pattern: Option<Bytes>, expiredToo: bool, now: int,
                        all: seq<Item>)
  {
    && (forall x :: x in all ==>
          x.place in st.table && x.num == st.table[x.place].num && x.id == st.table[x.place].id)
    && forall p :: (exists x :: x in all && x.place == p) <==>
         && p in st.table
         && (user == None || user == Some(p.0))
         && (expiredToo || st.table[p].expires == None || now <= st.table[p].expires.value)
         && (pattern == None || Judge(p.1, pattern.value) == LikeTrue)
  }

  lemma ArrangesFinds(st: Store, user: Option<int>, pattern: Option<Bytes>, expiredToo: bool, now: int,
                      all: seq<Item>, order: Order)
    requires Arranges(all, Selected(st, user, pattern, expiredToo, now), order)
    ensures Finds(st, user, pattern, expiredToo, now, all)
  {
    hide Judge, Before;
    var items := Selected(st, user, pattern, expiredToo, now);
    forall p ensures (exists x :: x in all && x.place == p) <==>
                     p in st.table && Candidate(st, user, expiredToo, now, p) && Judgement(pattern, p.1) == LikeTrue
    {
      if p in st.table && Candidate(st, user, expiredToo, now, p) && Judgement(pattern, p.1) == LikeTrue {
        assert ItemOf(st, p) in items;
      }
    }
  }

  /** The entries a page of an arrangement shows: from the skipped ones on, up to the limit, as they read. */
  ghost predicate ShowsPage(st: Store, all: seq<Item>, limit: int, skip: nat, found: seq<Found>) {
    && |found| == (var rest := if skip < |all| then |all| - skip else 0; if 0 < limit < rest then limit else rest)
    && forall i :: 0 <= i < |found| ==>
         var x := all[skip + i];
         x.place in st.table && found[i] == Found(x.place, x.id, Read(st.table[x.place]))
  }

  /** Of an arrangement the rows from the skipped ones on are gone, up to the limit, and no others. */
  ghost predicate RemovesPage(st: Store, st': Store, all: seq<Item>, limit: int, skip: nat, count: nat) {
    && count == (var rest := if skip < |all| then |all| - skip else 0; if 0 < limit < rest then limit else rest)
    && st'.nextID == st.nextID
    && (forall p :: p in st'.table <==> p in st.table && forall i :: skip <= i < skip + count ==> all[i].place != p)
    && (forall p :: p in st'.table ==> st'.table[p] == st.table[p])
  }

  lemma PageRemoved(st: Store, all: seq<Item>, limit: int, skip: nat, now: int)
    ensures var page := Page(all, limit, skip);
            RemovesPage(st, Apply(st, Delete(Places(page)), now), all, limit, skip, |page|)
  {
    PageAt(all, limit, skip);
    var page := Page(all, limit, skip);
    forall p ensures p in Places(page) <==> exists i :: skip <= i < skip + |page| && all[i].place == p {
      if p in Places(page) {
        var x :| x in page && x.place == p;
        var i :| 0 <= i < |page| && page[i] == x;
        assert all[skip + i].place == p;
      }
      if i :| skip <= i < skip + |page| && all[i].place == p {
        assert page[i - skip] == all[i] && all[i] in page;
      }
    }
  }

  class MockDB {
    var entries: map<Bytes, Entry>
    var valueNums: map<Bytes, Num>
    var nextID: int
    ghost var store: Store

    ghost predicate Valid()
      reads this
    {
      nextID == store.nextID && Sound(store) && Agree(entries, valueNums, store.table)
    }

    constructor ()
      ensures Valid() && store == Store(map[], 1)
    {
      entries, valueNums, nextID, store := map[], map[], 1, Store(map[], 1);
    }

    method Get(user: int, key: Bytes, now: int) returns (r: Option<Value>)
      requires Valid()
      ensures r == Lookup(store, (user, key), now)
    {
      hide MakeKey, Sound, Agree;
      var c := MakeKey(user, key);
      Find(entries, valueNums, store.table, user, key);
      if c !in entries {
        return None;
      }
      var e := entries[c];
      if e.expires.Some? && now > e.expires.value {
        return None;
      }
      r := Some(if e.value.Number? then Number(valueNums[c]) else e.value);
    }

    /** Both maps get the key's new values; the rest of the table stays. */
    method Put(e: Entry, num: Num, ghost next: Store)
      requires Valid() && Sound(next) && next.nextID == nextID + (if (e.user, e.key) in store.table then 0 else 1)
      requires next.table == store.table[(e.user, e.key) := RowOf(e, num)]
      modifies this
      ensures Valid() && store == next
    {
      hide MakeKey, Sound, Agree;
      var c := MakeKey(e.user, e.key);
      Find(entries, valueNums, store.table, e.user, e.key);
      if c !in entries {
        nextID := nextID + 1;
      }
      PutAgrees(entries, valueNums, store.table, e, num);
      entries, valueNums := entries[c := e], valueNums[c := num];
      store := next;
    }

    method SetWithExpiry(user: int, key: Bytes, value: Value, serializes: bool, ttl: int, now: int) returns (ok: bool)
      requires Valid()
      modifies this
      ensures Valid() && ok == serializes
      ensures store == if serializes then AfterSet(old(store), (user, key), value, ttl, now) else old(store)
    {
      hide MakeKey, Sound, Agree;
      if !serializes {
        return false;
      }
      var c := MakeKey(user, key);
      Find(entries, valueNums, store.table, user, key);
      var expires := if ttl > 0 then Some(now + ttl) else None;
      var id, created := nextID, now;
      if c in entries {
        id, created := entries[c].id, entries[c].created;
      }
      ApplySound(store, Set((user, key), value, ttl), now);
      var entry := Entry(id, user, key, created, now, value, expires);
      Put(entry, Column(value), AfterSet(store, (user, key), value, ttl, now));
      return true;
    }

    method Incr(user: int, key: Bytes, amount: Num, now: int) returns (sum: Num)
      requires Valid()
      modifies this
      ensures Valid() && store == AfterIncr(old(store), (user, key), amount, now)
      ensures sum == store.table[(user, key)].num
    {
      hide MakeKey, Sound, Agree;
      var c := MakeKey(user, key);
      Find(entries, valueNums, store.table, user, key);
      ApplySound(store, Write.Incr((user, key), amount), now);
      ghost var next := AfterIncr(store, (user, key), amount, now);
      if c !in entries {
        Put(Entry(nextID, user, key, now, now, Number(amount), None), amount, next);
        return amount;
      }
      var updated := entries[c].(updated := now);
      if updated.expires.Some? && now > updated.expires.value {
        updated := updated.(created := now, expires := None);
        sum := amount;
      } else {
        sum := Plus(valueNums[c], amount);
      }
      Put(updated, sum, next);
    }

    /** Both maps lose the keys; the rest of the table stays. */
    method Remove(user: int, key: Bytes)
      requires Valid()
      modifies this
      ensures Valid() && store == Apply(old(store), Delete({(user, key)}), 0)
    {
      hide MakeKey, Sound, Agree;
      var c := MakeKey(user, key);
      ApplySound(store, Delete({(user, key)}), 0);
      RemoveAgrees(entries, valueNums, store.table, user, key);
      entries, valueNums := entries - {c}, valueNums - {c};
      store := Apply(store, Delete({(user, key)}), 0);
    }

    method Del(user: int, key: Bytes) returns (found: bool)
      requires Valid()
      modifies this
      ensures Valid() && found == ((user, key) in old(store).table)
      ensures store == Apply(old(store), Delete({(user, key)}), 0)
    {
      hide MakeKey, Sound, Agree;
      Find(entries, valueNums, store.table, user, key);
      found := MakeKey(user, key) in entries;
      if found {
        Remove(user, key);
      } else {
        assert store.table - {(user, key)} == store.table;
      }
    }

    /** The walk over the map stops at the one entry with the ID. */
    method DelByID(user: int, id: int) returns (found: bool)
      requires Valid()
      modifies this
      ensures Valid() && found == (WithID(old(store).table, user, id) != {})
      ensures store == Apply(old(store), Delete(WithID(old(store).table, user, id)), 0)
    {
      hide MakeKey, Sound, Agree, WithID;
      var todo := entries.Keys;
      while todo != {}
        invariant todo <= entries.Keys
        invariant forall c :: c in entries && c !in todo ==> !(entries[c].id == id && entries[c].user == user)
        decreases |todo|
      {
        var c :| c in todo;
        var e := entries[c];
        if e.id == id && e.user == user {
          KeysApart(entries, valueNums, store.table, c, c);
          OneWithID(store, (user, e.key), id);
          Remove(e.user, e.key);
          return true;
        }
        todo := todo - {c};
      }
      forall p | p in store.table ensures !(p.0 == user && store.table[p].id == id) {
        Find(entries, valueNums, store.table, p.0, p.1);
        assert p == (p.0, p.1);
      }
      NoneWithID(store.table, user, id);
      return false;
    }

    // -------------------------------------------------------------- queries

    /** One entry of the walk: whether the query takes it, or fails on it. */
    method Examine(c: Bytes, user: Option<int>, pattern: Option<Bytes>, expiredToo: bool, now: int)
      returns (taken: bool, failed: bool, x: Item)
      requires Valid() && c in entries
      ensures var p := (entries[c].user, entries[c].key);
              && p in store.table && x == ItemOf(store, p)
              && (taken <==> Candidate(store, user, expiredToo, now, p) && Judgement(pattern, p.1) == LikeTrue)
              && (failed <==> Candidate(store, user, expiredToo, now, p) && Judgement(pattern, p.1) == ErrLikeEscape)
    {
      hide MakeKey, Sound, Agree, Judge;
      var e := entries[c];
      KeysApart(entries, valueNums, store.table, c, c);
      x := Item(valueNums[c], e.id, (e.user, e.key));
      if (e.expires.Some? && now > e.expires.value && !expiredToo) || (user.Some? && e.user != user.value) {
        return false, false, x;
      }
      var verdict := LikeTrue;
      if pattern.Some? {
        verdict := MatchText(e.key, pattern.value);
      }
      return verdict == LikeTrue, verdict == ErrLikeEscape, x;
    }

    /** The walk every query makes over the map, in whatever order. */
    method Collect(user: Option<int>, pattern: Option<Bytes>, expiredToo: bool, now: int)
      returns (failed: bool, results: seq<Item>)
      requires Valid()
      ensures failed <==> Fails(store, user, pattern, expiredToo, now)
      ensures !failed ==> (forall x :: x in results <==> x in Selected(store, user, pattern, expiredToo, now))
      ensures !failed ==> forall i, j :: 0 <= i < j < |results| ==> results[i] != results[j]
    {
      hide MakeKey, Sound, Agree, Gathered, Candidate, Judgement, Fails, Selected;
      results := [];
      var todo := entries.Keys;
      ghost var seen: set<Place> := {};
      GatherNothing(store, user, pattern, expiredToo, now);
      while todo != {}
        invariant todo <= entries.Keys
        invariant forall c :: c in entries ==> (c in todo <==> (entries[c].user, entries[c].key) !in seen)
        invariant Gathered(store, user, pattern, expiredToo, now, results, seen)
        decreases |todo|
      {
        var c :| c in todo;
        todo := todo - {c};
        ghost var p := (entries[c].user, entries[c].key);
        var taken, fails, x := Examine(c, user, pattern, expiredToo, now);
        if fails {
          GatherFails(store, user, pattern, expiredToo, now, p);
          return true, results;
        }
        GatherNext(store, user, pattern, expiredToo, now, results, seen, p);
        if taken {
          results := results + [x];
        }
        seen := seen + {p};
        forall d | d in entries ensures d in todo <==> (entries[d].user, entries[d].key) !in seen {
          KeysApart(entries, valueNums, store.table, c, d);
        }
      }
      forall p | p in store.table ensures p in seen {
        Find(entries, valueNums, store.table, p.0, p.1);
        assert p == (p.0, p.1);
      }
      GatherAll(store, user, pattern, expiredToo, now, results, seen);
      return false, results;
    }

    method RemoveAll(page: seq<Item>, ghost now: int)
      requires Valid()
      modifies this
      ensures Valid() && store == Apply(old(store), Delete(Places(page)), now)
    {
      hide MakeKey, Sound, Agree, Places, Holds;
      PlacesGrow(page, 0);
      assert page[..0] == [];
      assert old(store).table - {} == old(store).table;
      for i := 0 to |page|
        invariant Valid() && store == Store(old(store).table - Places(page[..i]), old(store).nextID)
      {
        PlacesGrow(page, i + 1);
        Remove(page[i].place.0, page[i].place.1);
        assert page[i].place == (page[i].place.0, page[i].place.1);
        assert old(store).table - Places(page[..i]) - {page[i].place} == old(store).table - Places(page[..i + 1]);
      }
      assert page[..|page|] == page;
    }

    /** The matching entries of a page, in order, each as it reads. */
    method Query(user: Option<int>, pattern: Bytes, order: Order, limit: int, skip: nat, now: int)
      returns (failed: bool, found: seq<Found>, ghost all: seq<Item>)
      requires Valid()
      ensures failed <==> Fails(store, user, Some(pattern), false, now)
      ensures !failed ==> Arranges(all, Selected(store, user, Some(pattern), false, now), order)
      ensures !failed ==> DistinctIDs(Selected(store, user, Some(pattern), false, now))
      ensures !failed ==> ShowsPage(store, all, limit, skip, found)
    {
      hide MakeKey, Sound, Agree, Judge, Arranges, Before, Sorted;
      var results: seq<Item>;
      failed, results := Collect(user, Some(pattern), false, now);
      found, all := [], [];
      if failed {
        return;
      }
      SelectedDistinct(store, user, Some(pattern), false, now);
      SortedArranges(results, Selected(store, user, Some(pattern), false, now), order);
      var sorted := Sorted(results, order);
      all := sorted;
      ArrangesMembers(all, Selected(store, user, Some(pattern), false, now), order);
      var page := Page(sorted, limit, skip);
      PageMembers(sorted, limit, skip);
      PageAt(sorted, limit, skip);
      for i := 0 to |page|
        invariant |found| == i
        invariant forall k :: 0 <= k < i ==>
          page[k].place in store.table && found[k] == Found(page[k].place, page[k].id, Read(store.table[page[k].place]))
      {
        var x := page[i];
        assert x in sorted;
        var c := MakeKey(x.place.0, x.place.1);
        Find(entries, valueNums, store.table, x.place.0, x.place.1);
        var e := entries[c];
        found := found + [Found(x.place, x.id, if e.value.Number? then Number(valueNums[c]) else e.value)];
      }
    }

    method GetPattern(user: int, pattern: Bytes, limit: int, skip: nat, descending: bool, now: int)
      returns (failed: bool, found: seq<Found>, ghost all: seq<Item>)
      requires Valid()
      ensures failed <==> Fails(store, Some(user), Some(pattern), false, now)
      ensures !failed ==> Arranges(all, Selected(store, Some(user), Some(pattern), false, now), IDOrder(descending))
      ensures !failed ==> Finds(store, Some(user), Some(pattern), false, now, all)
      ensures !failed ==> if descending then IDsFall(all) else IDsRise(all)
      ensures !failed ==> ShowsPage(store, all, limit, skip, found)
    {
      hide Arranges, Selected, Fails, Finds, ShowsPage, IDsFall, IDsRise, DistinctIDs, Valid;
      failed, found, all := Query(Some(user), pattern, IDOrder(descending), limit, skip, now);
      if !failed {
        ArrangesRuns(all, Selected(store, Some(user), Some(pattern), false, now), IDOrder(descending));
        ArrangesFinds(store, Some(user), Some(pattern), false, now, all, IDOrder(descending));
      }
    }

    method TopEntries(pattern: Bytes, limit: int, skip: nat, ascending: bool, now: int)
      returns (failed: bool, found: seq<Found>, ghost all: seq<Item>)
      requires Valid()
      ensures failed <==> Fails(store, None, Some(pattern), false, now)
      ensures !failed ==> Arranges(all, Selected(store, None, Some(pattern), false, now), ValueOrder(ascending))
      ensures !failed ==> Finds(store, None, Some(pattern), false, now, all)
      ensures !failed ==> if ascending then BottomUp(all) else TopDown(all)
      ensures !failed ==> ShowsPage(store, all, limit, skip, found)
    {
      hide Arranges, Selected, Fails, Finds, ShowsPage, BottomUp, TopDown, DistinctIDs, Valid;
      failed, found, all := Query(None, pattern, ValueOrder(ascending), limit, skip, now);
      if !failed {
        ArrangesRuns(all, Selected(store, None, Some(pattern), false, now), ValueOrder(ascending));
        ArrangesFinds(store, None, Some(pattern), false, now, all, ValueOrder(ascending));
      }
    }

    /** The position of a user's key among the matching entries, 0 when it is not among them. */
    method RankOf(user: Option<int>, pattern: Option<Bytes>, ascending: bool, target: int, key: Bytes, now: int)
      returns (failed: bool, rank: nat, ghost all: seq<Item>)
      requires Valid()
      ensures failed <==> Fails(store, user, pattern, false, now)
      ensures !failed ==> Arranges(all, Selected(store, user, pattern, false, now), ValueOrder(ascending))
      ensures !failed ==> Finds(store, user, pattern, false, now, all)
      ensures !failed ==> if ascending then BottomUp(all) else TopDown(all)
      ensures !failed ==> rank == Rank(all, (target, key))
      ensures !failed ==> if rank == 0 then forall x :: x in all ==> x.place != (target, key)
                          else rank <= |all| && all[rank - 1].place == (target, key)
    {
      hide MakeKey, Sound, Agree, Judge, Arranges, Before, Sorted, Finds, BottomUp, TopDown, DistinctIDs;
      var results: seq<Item>;
      failed, results := Collect(user, pattern, false, now);
      rank, all := 0, [];
      if failed {
        return;
      }
      SelectedDistinct(store, user, pattern, false, now);
      SortedArranges(results, Selected(store, user, pattern, false, now), ValueOrder(ascending));
      var sorted := Sorted(results, ValueOrder(ascending));
      all := sorted;
      ArrangesRuns(all, Selected(store, user, pattern, false, now), ValueOrder(ascending));
      ArrangesFinds(store, user, pattern, false, now, all, ValueOrder(ascending));
      RankAt(all, (target, key));
      for i := 0 to |sorted|
        invariant var rest := Rank(sorted[i..], (target, key));
                  Rank(sorted, (target, key)) == if rest == 0 then 0 else rest + i
      {
        assert sorted[i..][1..] == sorted[i + 1..];
        if sorted[i].place == (target, key) {
          return false, i + 1, all;
        }
      }
    }

    method CountEntries(user: Option<int>, pattern: Option<Bytes>, now: int) returns (failed: bool, count: nat)
      requires Valid()
      ensures failed <==> Fails(store, user, pattern, false, now)
      ensures !failed ==> count == |Selected(store, user, pattern, false, now)|
    {
      hide MakeKey, Sound, Agree, Judge;
      var results: seq<Item>;
      failed, results := Collect(user, pattern, false, now);
      count := |results|;
      if !failed {
        EachOnce(results, Selected(store, user, pattern, false, now));
      }
    }

    /** Deletes the places of one page, expired rows included, and nothing else; a failing match deletes
        nothing. */
    method DelMultiple(user: Option<int>, pattern: Option<Bytes>, ascending: bool, limit: int, skip: nat, now: int)
      returns (failed: bool, count: nat, ghost all: seq<Item>)
      requires Valid()
      modifies this
      ensures Valid()
      ensures failed <==> Fails(old(store), user, pattern, true, now)
      ensures failed ==> store == old(store)
      ensures !failed ==> Arranges(all, Selected(old(store), user, pattern, true, now), ValueOrder(ascending))
      ensures !failed ==> Finds(old(store), user, pattern, true, now, all)
      ensures !failed ==> if ascending then BottomUp(all) else TopDown(all)
      ensures !failed ==> count == |Page(all, limit, skip)|
      ensures !failed ==> store == Apply(old(store), Delete(Places(Page(all, limit, skip))), now)
      ensures !failed ==> RemovesPage(old(store), store, all, limit, skip, count)
    {
      hide MakeKey, Sound, Agree, Judge, Arranges, Before, Sorted, Finds, BottomUp, TopDown, DistinctIDs;
      var results: seq<Item>;
      failed, results := Collect(user, pattern, true, now);
      count, all := 0, [];
      if failed {
        return;
      }
      SelectedDistinct(store, user, pattern, true, now);
      SortedArranges(results, Selected(store, user, pattern, true, now), ValueOrder(ascending));
      var sorted := Sorted(results, ValueOrder(ascending));
      all := sorted;
      ArrangesRuns(all, Selected(store, user, pattern, true, now), ValueOrder(ascending));
      ArrangesFinds(store, user, pattern, true, now, all, ValueOrder(ascending));
      var page := Page(sorted, limit, skip);
      ghost var was := store;
      RemoveAll(page, now);
      count := |page|;
      PageRemoved(was, sorted, limit, skip, now);
    }
  }

  // ---------------------------------------------------------------- the walk

  /** What the walk has when it has seen some places and none failed. */
  ghost predicate Gathered(st: Store, user: Option<int>, pattern: Option<Bytes>, expiredToo: bool, now: int,
                           results: seq<Item>, seen: set<Place>)
  {
    && (forall p :: p in seen && Candidate(st, user, expiredToo, now, p) ==> Judgement(pattern, p.1) != ErrLikeEscape)
    && (forall x :: x in results <==> x in Selected(st, user, pattern, expiredToo, now) && x.place in seen)
    && (forall i, j :: 0 <= i < j < |results| ==> results[i] != results[j])
  }

  lemma GatherNothing(st: Store, user: Option<int>, pattern: Option<Bytes>, expiredToo: bool, now: int)
    ensures Gathered(st, user, pattern, expiredToo, now, [], {})
  {
  }

  lemma GatherFails(st: Store, user: Option<int>, pattern: Option<Bytes>, expiredToo: bool, now: int, p: Place)
    requires Candidate(st, user, expiredToo, now, p) && Judgement(pattern, p.1) == ErrLikeEscape
    ensures Fails(st, user, pattern, expiredToo, now)
  {
  }

  lemma GatherNext(st: Store, user: Option<int>, pattern: Option<Bytes>, expiredToo: bool, now: int,
                   results: seq<Item>, seen: set<Place>, p: Place)
    requires Gathered(st, user, pattern, expiredToo, now, results, seen) && p in st.table && p !in seen
    requires Candidate(st, user, expiredToo, now, p) ==> Judgement(pattern, p.1) != ErrLikeEscape
    ensures var found := Candidate(st, user, expiredToo, now, p) && Judgement(pattern, p.1) == LikeTrue;
            var next := if found then results + [ItemOf(st, p)] else results;
            Gathered(st, user, pattern, expiredToo, now, next, seen + {p})
  {
    hide Candidate, Judgement;
  }

  lemma GatherAll(st: Store, user: Option<int>, pattern: Option<Bytes>, expiredToo: bool, now: int,
                  results: seq<Item>, seen: set<Place>)
    requires Gathered(st, user, pattern, expiredToo, now, results, seen) && forall p :: p in st.table ==> p in seen
    ensures !Fails(st, user, pattern, expiredToo, now)
    ensures forall x :: x in results <==> x in Selected(st, user, pattern, expiredToo, now)
    ensures forall i, j :: 0 <= i < j < |results| ==> results[i] != results[j]
  {
  }

  ghost function Places(r: seq<Item>): set<Place> {
    set x | x in r :: x.place
  }

  lemma PlacesGrow(r: seq<Item>, i: nat)
    requires i <= |r|
    ensures Places(r[..i]) == if i == 0 then {} else Places(r[..i - 1]) + {r[i - 1].place}
  {
    if i > 0 {
      assert r[..i] == r[..i - 1] + [r[i - 1]];
    }
  }

  lemma PageMembers(r: seq<Item>, limit: int, skip: nat)
    ensures forall x :: x in Page(r, limit, skip) ==> x in r
  {
  }

  lemma {:induction false} EachOnce(results: seq<Item>, items: set<Item>)
    requires forall x :: x in results <==> x in items
    requires forall i, j :: 0 <= i < j < |results| ==> results[i] != results[j]
    ensures |results| == |items|
    decreases |results|
  {
    if results == [] {
      assert items == {};
    } else {
      var x, rest := results[0], results[1..];
      assert x in results;
      forall y ensures y in rest <==> y in items - {x} {
        assert y in results <==> y == x || y in rest;
      }
      EachOnce(rest, items - {x});
    }
  }
}
