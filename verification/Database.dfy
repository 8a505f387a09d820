/** The template database as a table (db.go): one row per user and key. */
module Database {

  import opened Basics
  import opened Like

  type Bytes = seq<byte>

  // ---------------------------------------------------------------- numbers

  datatype Num = NegInf | Finite(r: real) | PosInf | NaN

  function Plus(a: Num, b: Num): Num {
    if a.NaN? || b.NaN? then NaN
    else if a.Finite? && b.Finite? then Finite(a.r + b.r)
    else if a.Finite? then b
    else if b.Finite? || a == b then a
    else NaN
  }

  /** pgCompare: NaN equals NaN and sorts above every number. */
  function Compare(a: Num, b: Num): int {
    if a.NaN? && b.NaN? then 0
    else if a.NaN? then 1
    else if b.NaN? then -1
    else if a == b then 0
    else if a.NegInf? || b.PosInf? || (a.Finite? && b.Finite? && a.r < b.r) then -1
    else 1
  }

  /** A stored value: a number, or anything else with what its value_num column gets. */
  datatype Value = Number(n: Num) | Other(content: Bytes, column: Num)

  function Column(v: Value): Num {
    if v.Number? then v.n else v.column
  }

  // ---------------------------------------------------------------- the table

  type Place = (int, Bytes)

  datatype Row = Row(id: int, created: int, updated: int, value: Value, num: Num, expires: Option<int>)

  datatype Store = Store(table: map<Place, Row>, nextID: int)

  predicate Expired(row: Row, now: int) {
    row.expires.Some? && now > row.expires.value
  }

  /** What a read gives: a row whose value is a number reads as its value_num. */
  function Read(row: Row): Value {
    if row.value.Number? then Number(row.num) else row.value
  }

  function Lookup(st: Store, p: Place, now: int): Option<Value> {
    if p in st.table && !Expired(st.table[p], now) then Some(Read(st.table[p])) else None
  }

  function AfterSet(st: Store, p: Place, value: Value, ttl: int, now: int): Store {
    var expires := if ttl > 0 then Some(now + ttl) else None;
    if p in st.table then
      st.(table := st.table[p := Row(st.table[p].id, st.table[p].created, now, value, Column(value), expires)])
    else Store(st.table[p := Row(st.nextID, now, now, value, Column(value), expires)], st.nextID + 1)
  }

  function AfterIncr(st: Store, p: Place, amount: Num, now: int): Store {
    if p !in st.table then Store(st.table[p := Row(st.nextID, now, now, Number(amount), amount, None)], st.nextID + 1)
    else
      var row := st.table[p];
      st.(table := st.table[p :=
        if Expired(row, now) then Row(row.id, now, now, row.value, amount, None)
        else row.(updated := now, num := Plus(row.num, amount))])
  }

  /** IDs are positive, below the next one, and no two rows share one. */
  ghost predicate Sound(st: Store) {
    && st.nextID >= 1
    && (forall p :: p in st.table ==> 1 <= st.table[p].id < st.nextID)
    && (forall p, q :: p in st.table && q in st.table && st.table[p].id == st.table[q].id ==> p == q)
  }

  // ---------------------------------------------------------------- sequences of writes

  datatype Write =
    | Set(place: Place, value: Value, ttl: int)
    | Incr(place: Place, amount: Num)
    | Delete(places: set<Place>)

  function Apply(st: Store, w: Write, now: int): Store {
    match w
    case Set(p, value, ttl) => AfterSet(st, p, value, ttl, now)
    case Incr(p, amount) => AfterIncr(st, p, amount, now)
    case Delete(places) => st.(table := st.table - places)
  }

  /** Writes with the time of each. */
  function ApplyAll(st: Store, ws: seq<(Write, int)>): Store {
    if ws == [] then st else Apply(ApplyAll(st, ws[..|ws| - 1]), ws[|ws| - 1].0, ws[|ws| - 1].1)
  }

  /** Putting a row under its old ID, or a new place under the next one, keeps IDs distinct. */
  lemma PutSound(st: Store, p: Place, row: Row)
    requires Sound(st) && row.id == if p in st.table then st.table[p].id else st.nextID
    ensures Sound(Store(st.table[p := row], if p in st.table then st.nextID else st.nextID + 1))
  {
  }

  lemma ApplySound(st: Store, w: Write, now: int)
    requires Sound(st)
    ensures var end := Apply(st, w, now);
            && Sound(end) && end.nextID >= st.nextID
            && forall p :: p in end.table ==>
                 if p in st.table then end.table[p].id == st.table[p].id else end.table[p].id >= st.nextID
  {
    var end := Apply(st, w, now);
    if !w.Delete? {
      PutSound(st, w.place, end.table[w.place]);
    }
  }

  /** Over any writes IDs stay distinct and below the next one, and an ID is never given out again. */
  lemma {:induction false} AllSound(st: Store, ws: seq<(Write, int)>)
    requires Sound(st)
    ensures Sound(ApplyAll(st, ws)) && ApplyAll(st, ws).nextID >= st.nextID
    decreases |ws|
  {
    if ws != [] {
      AllSound(st, ws[..|ws| - 1]);
      ApplySound(ApplyAll(st, ws[..|ws| - 1]), ws[|ws| - 1].0, ws[|ws| - 1].1);
    }
  }

  /** The write gives the place a new value: a set, or an increment where no unexpired row is. */
  predicate Starts(st: Store, w: Write, now: int, p: Place) {
    match w
    case Set(q, _, _) => q == p
    case Incr(q, _) => q == p && (p !in st.table || Expired(st.table[p], now))
    case Delete(_) => false
  }

  predicate Removes(w: Write, p: Place) {
    w.Delete? && p in w.places
  }

  /** The sum the writes add to a row, in their order. */
  function Increments(from: Num, ws: seq<(Write, int)>, p: Place): Num {
    if ws == [] then from
    else
      var before := Increments(from, ws[..|ws| - 1], p);
      var w := ws[|ws| - 1].0;
      if w.Incr? && w.place == p then Plus(before, w.amount) else before
  }

  function StoreBefore(st: Store, ws: seq<(Write, int)>, i: nat): Store
    requires i <= |ws|
  {
    ApplyAll(st, ws[..i])
  }

  /** The i-th write starts the place's row, and no later one starts it again or removes it. */
  ghost predicate LastStart(st: Store, ws: seq<(Write, int)>, i: nat, p: Place) {
    && i < |ws|
    && Starts(StoreBefore(st, ws, i), ws[i].0, ws[i].1, p)
    && forall j :: i < j < |ws| ==> !Starts(StoreBefore(st, ws, j), ws[j].0, ws[j].1, p) && !Removes(ws[j].0, p)
  }

  lemma LastStartEarlier(st: Store, ws: seq<(Write, int)>, i: nat, p: Place)
    requires LastStart(st, ws, i, p) && i + 1 < |ws|
    ensures LastStart(st, ws[..|ws| - 1], i, p)
  {
    hide ApplyAll, Starts;
    var rest := ws[..|ws| - 1];
    assert forall j :: 0 <= j < |rest| ==> rest[j] == ws[j] && rest[..j] == ws[..j];
  }

  /** What a start leaves: the value set and its expiry, or the amount and no expiry. */
  predicate StartedBy(w: Write, now: int, row: Row) {
    match w
    case Set(_, v, ttl) =>
      row.value == v && row.num == Column(v) && row.expires == if ttl > 0 then Some(now + ttl) else None
    case Incr(_, amount) => row.num == amount && row.expires == None
    case Delete(_) => false
  }

  /** A write that neither starts nor removes a row adds to its number at most. */
  lemma ApplyAdds(st: Store, w: Write, now: int, p: Place)
    requires p in st.table && !Starts(st, w, now, p) && !Removes(w, p)
    ensures var end, row := Apply(st, w, now), st.table[p];
            && p in end.table
            && end.table[p] == row.(num := if w.Incr? && w.place == p then Plus(row.num, w.amount) else row.num,
                                    updated := end.table[p].updated)
  {
  }

  lemma StartStays(st: Store, w: Write, now: int, p: Place)
    requires Starts(st, w, now, p)
    ensures p in Apply(st, w, now).table && StartedBy(w, now, Apply(st, w, now).table[p])
  {
  }

  lemma LaterSlices<T>(ws: seq<T>, i: nat)
    requires i + 1 < |ws|
    ensures var rest, later := ws[..|ws| - 1], ws[i + 1..];
            && rest[..i] == ws[..i] && rest[..i + 1] == ws[..i + 1] && rest[i] == ws[i]
            && rest[i + 1..] == later[..|later| - 1] && later[|later| - 1] == ws[|ws| - 1]
  {
  }

  /** Since its last start a row is what the start left, with the increments after it added. */
  lemma {:induction false} RowSinceStart(st: Store, ws: seq<(Write, int)>, i: nat, p: Place)
    requires LastStart(st, ws, i, p)
    ensures var start, end := StoreBefore(st, ws, i + 1), ApplyAll(st, ws);
            && p in start.table && p in end.table
            && end.table[p] == start.table[p].(num := Increments(start.table[p].num, ws[i + 1..], p),
                                               updated := end.table[p].updated)
    decreases |ws|
  {
    hide Apply, Starts, Plus;
    var n := |ws| - 1;
    var rest := ws[..n];
    if i == n {
      assert ws[..n + 1] == ws && ws[i + 1..] == [];
      assert ApplyAll(st, ws) == Apply(StoreBefore(st, ws, i), ws[i].0, ws[i].1);
      StartStays(StoreBefore(st, ws, i), ws[i].0, ws[i].1, p);
    } else {
      LastStartEarlier(st, ws, i, p);
      RowSinceStart(st, rest, i, p);
      var later := ws[i + 1..];
      LaterSlices(ws, i);
      assert !Starts(StoreBefore(st, ws, n), ws[n].0, ws[n].1, p) && !Removes(ws[n].0, p);
      ApplyAdds(ApplyAll(st, rest), ws[n].0, ws[n].1, p);
    }
  }

  lemma StartFound(st: Store, ws: seq<(Write, int)>, i: nat, p: Place)
    requires ws != [] && LastStart(st, ws[..|ws| - 1], i, p)
    requires !Starts(StoreBefore(st, ws, |ws| - 1), ws[|ws| - 1].0, ws[|ws| - 1].1, p) && !Removes(ws[|ws| - 1].0, p)
    ensures LastStart(st, ws, i, p)
  {
    hide ApplyAll, Starts;
    var rest := ws[..|ws| - 1];
    assert forall j :: 0 <= j < |rest| ==> rest[j] == ws[j] && rest[..j] == ws[..j];
  }

  /** Every row has a last start among the writes, if the store began without it. */
  lemma {:induction false} EveryRowStarts(st: Store, ws: seq<(Write, int)>, p: Place) returns (i: nat)
    requires p !in st.table && p in ApplyAll(st, ws).table
    ensures LastStart(st, ws, i, p)
    decreases |ws|
  {
    var n := |ws| - 1;
    if Starts(StoreBefore(st, ws, n), ws[n].0, ws[n].1, p) {
      i := n;
    } else {
      i := EveryRowStarts(st, ws[..n], p);
      StartFound(st, ws, i, p);
    }
  }

  /** Over any writes, every row a read finds has a last start: a set, or an increment where no row was or
      an expired one. A number reads as what the start gave plus all the increments since, in order;
      anything else reads as the start left it. */
  lemma ReadsLastStart(st: Store, ws: seq<(Write, int)>, p: Place, now: int) returns (i: nat)
    requires p !in st.table && Lookup(ApplyAll(st, ws), p, now).Some?
    ensures LastStart(st, ws, i, p) && p in StoreBefore(st, ws, i + 1).table
    ensures var start := StoreBefore(st, ws, i + 1).table[p];
            && StartedBy(ws[i].0, ws[i].1, start) && !Expired(start, now)
            && Lookup(ApplyAll(st, ws), p, now)
                 == Some(if start.value.Number? then Number(Increments(start.num, ws[i + 1..], p)) else start.value)
  {
    i := EveryRowStarts(st, ws, p);
    RowSinceStart(st, ws, i, p);
    var upTo := ws[..i + 1];
    assert upTo[..i] == ws[..i] && upTo[i] == ws[i];
    StartStays(StoreBefore(st, ws, i), ws[i].0, ws[i].1, p);
  }

  /** A set keeps the creation time of the row it overwrites, even of an expired one; an increment starts
      an expired row over. Both are the row's last update. */
  lemma WritesStampRows(st: Store, w: Write, now: int)
    requires !w.Delete?
    ensures var row := Apply(st, w, now).table[w.place];
            && row.updated == now
            && if w.place !in st.table then row.created == now && row.id == st.nextID
               else
                 var was := st.table[w.place];
                 && row.id == was.id
                 && row.created == if w.Incr? && was.expires.Some? && now > was.expires.value then now else was.created
    ensures forall q :: q != w.place ==> (q in Apply(st, w, now).table <==> q in st.table)
    ensures forall q :: q != w.place && q in st.table ==> Apply(st, w, now).table[q] == st.table[q]
  {
  }

  /** The amounts the writes add to a row. */
  function Amounts(ws: seq<(Write, int)>, p: Place): seq<Num> {
    if ws == [] then []
    else
      var w := ws[|ws| - 1].0;
      Amounts(ws[..|ws| - 1], p) + if w.Incr? && w.place == p then [w.amount] else []
  }

  function Total(ns: seq<Num>): real {
    if ns == [] then 0.0
    else Total(ns[..|ns| - 1]) + if ns[|ns| - 1].Finite? then ns[|ns| - 1].r else 0.0
  }

  /** What numbers add up to in floating point, rounding aside: not a number when one of them is none or
      both infinities are among them, an infinity that is among them, and else their sum. */
  predicate AddsUpTo(ns: seq<Num>, sum: Num) {
    && (sum.NaN? <==> NaN in ns || (PosInf in ns && NegInf in ns))
    && (sum.PosInf? <==> PosInf in ns && NegInf !in ns && NaN !in ns)
    && (sum.NegInf? <==> NegInf in ns && PosInf !in ns && NaN !in ns)
    && (sum.Finite? ==> sum.r == Total(ns))
  }

  lemma PlusAddsUp(ns: seq<Num>, sum: Num, n: Num)
    requires AddsUpTo(ns, sum)
    ensures AddsUpTo(ns + [n], Plus(sum, n))
  {
    var all := ns + [n];
    assert all[..|all| - 1] == ns;
    assert forall x :: x in all <==> x in ns || x == n;
  }

  /** The increments of a row add up, whatever order they come in. */
  lemma {:induction false} IncrementsAddUp(from: Num, ws: seq<(Write, int)>, p: Place)
    ensures AddsUpTo([from] + Amounts(ws, p), Increments(from, ws, p))
    decreases |ws|
  {
    hide Plus, AddsUpTo;
    if ws == [] {
      OneAddsUp(from);
      assert [from] + Amounts(ws, p) == [from];
    } else {
      var w, rest := ws[|ws| - 1].0, ws[..|ws| - 1];
      IncrementsAddUp(from, rest, p);
      if w.Incr? && w.place == p {
        PlusAddsUp([from] + Amounts(rest, p), Increments(from, rest, p), w.amount);
        assert [from] + Amounts(ws, p) == [from] + Amounts(rest, p) + [w.amount];
      } else {
        assert [from] + Amounts(ws, p) == [from] + Amounts(rest, p);
      }
    }
  }

  lemma OneAddsUp(n: Num)
    ensures AddsUpTo([n], n)
  {
    assert [n][..0] == [];
  }

  /** A value set for a time reads until that time is past, and not after; without one it always reads. */
  lemma ReadsUntilExpiry(st: Store, p: Place, value: Value, ttl: int, at: int, now: int)
    ensures Lookup(AfterSet(st, p, value, ttl, at), p, now) == if ttl <= 0 || now <= at + ttl then Some(value) else None
  {
  }

  /** The write leaves the row where it is and only adds to it. */
  predicate Spares(w: Write, p: Place) {
    match w
    case Set(q, _, _) => q != p
    case Incr(_, _) => true
    case Delete(places) => p !in places
  }

  /** After a value is set and until it is set again, deleted or expires, a number reads as that value
      plus all the increments since, in order; anything else reads as it was set. */
  lemma {:induction false} ReadsLastSet(st: Store, p: Place, value: Value, ttl: int, at: int, ws: seq<(Write, int)>)
    requires forall i :: 0 <= i < |ws| ==> Spares(ws[i].0, p) && (ttl > 0 ==> ws[i].1 <= at + ttl)
    ensures var end := ApplyAll(AfterSet(st, p, value, ttl, at), ws);
            && p in end.table
            && end.table[p].value == value && end.table[p].num == Increments(Column(value), ws, p)
            && end.table[p].expires == (if ttl > 0 then Some(at + ttl) else None)
            && end.table[p].id == AfterSet(st, p, value, ttl, at).table[p].id
            && Read(end.table[p]) == if value.Number? then Number(Increments(value.n, ws, p)) else value
    decreases |ws|
  {
    if ws != [] {
      var rest := ws[..|ws| - 1];
      assert forall i :: 0 <= i < |rest| ==> rest[i] == ws[i];
      ReadsLastSet(st, p, value, ttl, at, rest);
    }
  }

  // ---------------------------------------------------------------- composite keys

  const COLON: byte := 0x3A
  const MINUS: byte := 0x2D

  function Digits(n: nat): (d: Bytes)
    ensures d != [] && forall i :: 0 <= i < |d| ==> 0x30 <= d[i] <= 0x39
    decreases n
  {
    if n < 10 then [0x30 + n] else Digits(n / 10) + [0x30 + n % 10]
  }

  function Decimal(n: int): Bytes {
    if n < 0 then [MINUS] + Digits(-n) else Digits(n)
  }

  /** makeKey: the user's ID in decimal, a colon and the key. */
  function MakeKey(user: int, key: Bytes): Bytes {
    Decimal(user) + [COLON] + key
  }

  lemma {:induction false} DigitsInjective(m: nat, n: nat)
    requires Digits(m) == Digits(n)
    ensures m == n
    decreases m
  {
    if m < 10 || n < 10 {
      assert |Digits(m)| == 1 <==> m < 10;
      assert |Digits(n)| == 1 <==> n < 10;
    } else {
      var a, b := Digits(m / 10), Digits(n / 10);
      assert Digits(m)[..|a|] == a && Digits(n)[..|b|] == b;
      assert Digits(m)[|a|] == 0x30 + m % 10 && Digits(n)[|b|] == 0x30 + n % 10;
      DigitsInjective(m / 10, n / 10);
    }
  }

  lemma DecimalNoColon(n: int)
    ensures forall i :: 0 <= i < |Decimal(n)| ==> Decimal(n)[i] != COLON
    ensures Decimal(n)[0] == MINUS <==> n < 0
  {
  }

  /** No two users' keys share a composite key, colons in the key or not. */
  lemma MakeKeyInjective(u: int, k: Bytes, v: int, l: Bytes)
    ensures MakeKey(u, k) == MakeKey(v, l) ==> u == v && k == l
  {
    hide Digits;
    if MakeKey(u, k) == MakeKey(v, l) {
      var a, b, c := Decimal(u), Decimal(v), MakeKey(u, k);
      DecimalNoColon(u);
      DecimalNoColon(v);
      assert c[|a|] == COLON && c[|b|] == COLON;
      assert forall i :: 0 <= i < |a| ==> c[i] == a[i];
      assert forall i :: 0 <= i < |b| ==> c[i] == b[i];
      assert |a| == |b|;
      assert c[..|a|] == a && c[..|b|] == b;
      assert k == c[|a| + 1..] == l;
      if u < 0 {
        assert a[1..] == Digits(-u) && b[1..] == Digits(-v);
        DigitsInjective(-u, -v);
      } else {
        DigitsInjective(u, v);
      }
    }
  }

  // ---------------------------------------------------------------- orders

  /** An entry as queries sort it. */
  datatype Item = Item(num: Num, id: int, place: Place)

  /** sortByValueNum's order: value_num, then ID. */
  predicate ByValue(a: Item, b: Item, ascending: bool) {
    var c := Compare(a.num, b.num);
    if c != 0 then (c < 0) == ascending else (a.id < b.id) == ascending
  }

  predicate ByID(a: Item, b: Item, descending: bool) {
    if descending then a.id > b.id else a.id < b.id
  }

  /** Which order a query sorts by. */
  datatype Order = ValueOrder(ascending: bool) | IDOrder(descending: bool)

  predicate Before(order: Order, a: Item, b: Item) {
    match order
    case ValueOrder(ascending) => ByValue(a, b, ascending)
    case IDOrder(descending) => ByID(a, b, descending)
  }

  function Opposite(order: Order): Order {
    match order
    case ValueOrder(ascending) => ValueOrder(!ascending)
    case IDOrder(descending) => IDOrder(!descending)
  }

  /** From the greatest value_num down, NaN before every number, and of equal ones the latest ID first. */
  predicate TopDown(r: seq<Item>) {
    forall i, j :: 0 <= i < j < |r| ==>
      var a, b := r[i].num, r[j].num;
      && (a.Finite? && b.Finite? ==> a.r >= b.r)
      && (b.NaN? ==> a.NaN?)
      && (b.PosInf? ==> a.NaN? || a.PosInf?)
      && (a.NegInf? ==> b.NegInf?)
      && (a == b ==> r[i].id > r[j].id)
  }

  /** From the least value_num up, NaN after every number, and of equal ones the earliest ID first. */
  predicate BottomUp(r: seq<Item>) {
    forall i, j :: 0 <= i < j < |r| ==>
      var a, b := r[i].num, r[j].num;
      && (a.Finite? && b.Finite? ==> a.r <= b.r)
      && (a.NaN? ==> b.NaN?)
      && (a.PosInf? ==> b.NaN? || b.PosInf?)
      && (b.NegInf? ==> a.NegInf?)
      && (a == b ==> r[i].id < r[j].id)
  }

  predicate IDsRise(r: seq<Item>) {
    forall i, j :: 0 <= i < j < |r| ==> r[i].id < r[j].id
  }

  predicate IDsFall(r: seq<Item>) {
    forall i, j :: 0 <= i < j < |r| ==> r[i].id > r[j].id
  }

  /** Which end comes first. */
  lemma ArrangesRuns(r: seq<Item>, items: set<Item>, order: Order)
    requires Arranges(r, items, order) && DistinctIDs(items)
    ensures match order
            case ValueOrder(ascending) => if ascending then BottomUp(r) else TopDown(r)
            case IDOrder(descending) => if descending then IDsFall(r) else IDsRise(r)
  {
    hide DistinctIDs;
    forall i, j | 0 <= i < j < |r| ensures r[i].id != r[j].id && Before(order, r[i], r[j]) {
      assert r[i] in r && r[j] in r;
      ApartByID(items, r[i], r[j]);
    }
  }

  lemma ApartByID(items: set<Item>, a: Item, b: Item)
    requires DistinctIDs(items) && a in items && b in items && a != b
    ensures a.id != b.id
  {
  }

  /** On items with different IDs either order is strict and total, NaN included. */
  lemma OrderIsTotal(order: Order, a: Item, b: Item, c: Item)
    requires a.id != b.id && b.id != c.id && a.id != c.id
    ensures Before(order, a, b) <==> !Before(order, b, a)
    ensures Before(order, a, b) && Before(order, b, c) ==> Before(order, a, c)
    ensures Before(Opposite(order), a, b) <==> Before(order, b, a)
  {
  }

  ghost predicate DistinctIDs(items: set<Item>) {
    forall a, b :: a in items && b in items && a.id == b.id ==> a == b
  }

  /** The items in order, each once. */
  ghost predicate Arranges(r: seq<Item>, items: set<Item>, order: Order) {
    && (forall x :: x in r <==> x in items)
    && forall i, j :: 0 <= i < j < |r| ==> r[i] != r[j] && Before(order, r[i], r[j])
  }

  lemma FirstIsLeast(r: seq<Item>, items: set<Item>, order: Order, x: Item)
    requires Arranges(r, items, order) && x in items
    ensures r != [] && (x == r[0] || Before(order, r[0], x))
  {
    var i :| 0 <= i < |r| && r[i] == x;
  }

  lemma Asymmetric(order: Order, a: Item, b: Item)
    requires a.id != b.id
    ensures Before(order, a, b) <==> !Before(order, b, a)
  {
  }

  lemma {:induction false} ArrangementSize(r: seq<Item>, items: set<Item>, order: Order)
    requires Arranges(r, items, order)
    ensures |r| == |items|
    decreases |r|
  {
    if r == [] {
      assert items == {};
    } else {
      RestArranges(r, items, order);
      ArrangementSize(r[1..], items - {r[0]}, order);
      assert r[0] in r;
    }
  }

  /** There is one arrangement: the order of the map the items come from does not matter. */
  lemma {:induction false} ArrangementIsUnique(r: seq<Item>, s: seq<Item>, items: set<Item>, order: Order)
    requires DistinctIDs(items) && Arranges(r, items, order) && Arranges(s, items, order)
    ensures r == s
    decreases |r|
  {
    ArrangementSize(r, items, order);
    ArrangementSize(s, items, order);
    if r != [] {
      var x, y := r[0], s[0];
      assert x in r && y in s;
      FirstIsLeast(s, items, order, x);
      FirstIsLeast(r, items, order, y);
      if x.id != y.id {
        Asymmetric(order, x, y);
      }
      RestArranges(r, items, order);
      RestArranges(s, items, order);
      ArrangementIsUnique(r[1..], s[1..], items - {x}, order);
      assert r == [x] + r[1..] && s == [x] + s[1..];
    }
  }

  lemma RestArranges(r: seq<Item>, items: set<Item>, order: Order)
    requires Arranges(r, items, order) && r != []
    ensures Arranges(r[1..], items - {r[0]}, order)
  {
    forall x ensures x in r[1..] <==> x in items - {r[0]} {
      if x in r[1..] {
        var i :| 0 <= i < |r[1..]| && r[1..][i] == x;
        assert r[i + 1] == x;
        assert x in r;
      }
      if x in items - {r[0]} {
        var i :| 0 <= i < |r| && r[i] == x;
        assert r[1..][i - 1] == x;
      }
    }
  }

  function Reversed(r: seq<Item>): seq<Item> {
    seq(|r|, i requires 0 <= i < |r| => r[|r| - 1 - i])
  }

  lemma ReversedArranges(r: seq<Item>, items: set<Item>, order: Order)
    requires DistinctIDs(items) && Arranges(r, items, order)
    ensures Arranges(Reversed(r), items, Opposite(order))
  {
    var s := Reversed(r);
    forall x ensures x in s <==> x in items {
      if x in s {
        var i :| 0 <= i < |s| && s[i] == x;
        assert r[|r| - 1 - i] == x;
      }
      if x in items {
        var i :| 0 <= i < |r| && r[i] == x;
        assert s[|r| - 1 - i] == x;
      }
    }
    forall i, j | 0 <= i < j < |s| ensures s[i] != s[j] && Before(Opposite(order), s[i], s[j]) {
      var a, b := r[|r| - 1 - j], r[|r| - 1 - i];
      assert a in r && b in r;
      Opposites(order, a, b);
    }
  }

  lemma Opposites(order: Order, a: Item, b: Item)
    requires a.id != b.id && Before(order, a, b)
    ensures Before(Opposite(order), b, a)
  {
  }

  /** 1 and up, or 0 when the place is not among the items. */
  function Rank(r: seq<Item>, place: Place): nat {
    if r == [] then 0
    else if r[0].place == place then 1
    else
      var rest := Rank(r[1..], place);
      if rest == 0 then 0 else rest + 1
  }

  lemma {:induction false} RankAt(r: seq<Item>, place: Place)
    ensures var k := Rank(r, place);
            && k <= |r|
            && (k > 0 ==> r[k - 1].place == place && forall i :: 0 <= i < k - 1 ==> r[i].place != place)
            && (k == 0 <==> forall i :: 0 <= i < |r| ==> r[i].place != place)
  {
    if r != [] {
      RankAt(r[1..], place);
      var k := Rank(r[1..], place);
      if k == 0 {
        forall i | 0 <= i < |r| && r[0].place != place ensures r[i].place != place {
          if i > 0 {
            assert r[1..][i - 1] == r[i];
          }
        }
      } else {
        assert r[1..][k - 1] == r[k];
        forall i | 0 < i < k ensures r[i].place != place {
          assert r[1..][i - 1] == r[i];
        }
      }
    }
  }

  /** One place, one item. */
  ghost predicate DistinctPlaces(items: set<Item>) {
    forall a, b :: a in items && b in items && a.place == b.place ==> a == b
  }

  /** An entry's ascending rank and its descending rank add up to one more than there are entries. */
  lemma RanksAddUp(up: seq<Item>, down: seq<Item>, items: set<Item>, order: Order, place: Place)
    requires DistinctIDs(items) && DistinctPlaces(items)
    requires Arranges(up, items, order) && Arranges(down, items, Opposite(order))
    ensures if exists x :: x in items && x.place == place then Rank(up, place) + Rank(down, place) == |items| + 1
            else Rank(up, place) == 0 == Rank(down, place)
  {
    hide Arranges, Before, Opposite, Rank;
    ReversedArranges(up, items, order);
    ArrangementIsUnique(Reversed(up), down, items, Opposite(order));
    ArrangementSize(up, items, order);
    RankAt(up, place);
    RankAt(down, place);
    ArrangesMembers(up, items, order);
    if x :| x in items && x.place == place {
      RankOfItem(up, items, order, x);
      RankOfItem(down, items, Opposite(order), x);
      ArrangesMembers(down, items, Opposite(order));
      var n, k, l := |up|, Rank(up, place), Rank(down, place);
      assert down[l - 1] == up[n - l];
      ArrangesOnce(up, items, order, k - 1, n - l);
    } else {
      forall i | 0 <= i < |up| ensures up[i].place != place && down[i].place != place {
        assert up[i] in up && up[|up| - 1 - i] in up;
      }
    }
  }

  lemma RankOfItem(r: seq<Item>, items: set<Item>, order: Order, x: Item)
    requires Arranges(r, items, order) && DistinctPlaces(items) && x in items
    ensures 1 <= Rank(r, x.place) <= |r| && r[Rank(r, x.place) - 1] == x
  {
    hide Rank, Before;
    RankAt(r, x.place);
    var i :| 0 <= i < |r| && r[i] == x;
    var k := Rank(r, x.place);
    assert r[k - 1] in r;
  }

  lemma ArrangesMembers(r: seq<Item>, items: set<Item>, order: Order)
    requires Arranges(r, items, order)
    ensures forall x :: x in r <==> x in items
  {
  }

  lemma ArrangesOnce(r: seq<Item>, items: set<Item>, order: Order, i: nat, j: nat)
    requires Arranges(r, items, order) && i < |r| && j < |r| && r[i] == r[j]
    ensures i == j
  {
  }

  // ---------------------------------------------------------------- pages

  function Page(r: seq<Item>, limit: int, skip: nat): seq<Item> {
    if skip >= |r| then []
    else if limit > 0 && |r| - skip > limit then r[skip..][..limit]
    else r[skip..]
  }

  /** A page starts after the skipped ones and goes on as long as there are any, up to the limit. */
  lemma PageAt(r: seq<Item>, limit: int, skip: nat)
    ensures var rest := if skip < |r| then |r| - skip else 0;
            |Page(r, limit, skip)| == if 0 < limit < rest then limit else rest
    ensures forall i :: 0 <= i < |Page(r, limit, skip)| ==> Page(r, limit, skip)[i] == r[skip + i]
  {
  }

  function Pages(r: seq<Item>, limit: nat, skip: nat): seq<Item>
    requires limit > 0
    decreases if skip < |r| then |r| - skip else 0
  {
    if skip >= |r| then [] else Page(r, limit, skip) + Pages(r, limit, skip + limit)
  }

  /** Consecutive pages make up the whole list. */
  lemma {:induction false} PagesConcatenate(r: seq<Item>, limit: nat, skip: nat)
    requires limit > 0 && skip <= |r|
    ensures Pages(r, limit, skip) == r[skip..]
    decreases |r| - skip
  {
    if |r| - skip > limit {
      PagesConcatenate(r, limit, skip + limit);
      assert r[skip..][..limit] + r[skip + limit..] == r[skip..];
    } else if skip < |r| {
      assert Pages(r, limit, skip + limit) == [];
      assert r[skip..] + [] == r[skip..];
    }
  }
}
