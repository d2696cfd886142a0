/** utils/hashmap.c: chains of items in a pool whose size is a power of two, doubled in
    place when it fills up. */
module HashMap {
  import opened Bytes
  import opened Sequences

  /** The octets of a C string, without its terminator. */
  type Key = seq<uint8>

  /** What an item binds; a value is a pointer, zero standing for NULL. */
  datatype Entry = Entry(key: Key, val: nat)

  /** hash32_djb2 */
  function Hash(key: Key): nat {
    if key == [] then 5381 else (33 * Hash(key[..|key| - 1]) + key[|key| - 1]) % 0x1_0000_0000
  }

  function Power33(n: nat): nat { if n == 0 then 1 else 33 * Power33(n - 1) }

  /** The octets as digits to the base 33, the last one the lowest. */
  function Digits(key: Key): nat {
    if key == [] then 0 else key[0] * Power33(|key| - 1) + Digits(key[1..])
  }

  lemma {:induction false} DigitsLast(key: Key, last: uint8)
    ensures Digits(key + [last]) == 33 * Digits(key) + last
    decreases |key|
  {
    var all := key + [last];
    if key == [] {
      assert all[1..] == [];
      assert Digits(all) == last * Power33(0) + Digits([]);
    } else {
      assert all[1..] == key[1..] + [last] && all[0] == key[0];
      DigitsLast(key[1..], last);
      Scaled(key[0], Power33(|key| - 1));
    }
  }

  lemma Scaled(x: nat, p: nat)
    ensures x * (33 * p) == 33 * (x * p)
  {
  }

  lemma WrapStep(a: nat, b: nat)
    ensures (33 * (a % 0x1_0000_0000) + b) % 0x1_0000_0000 == (33 * a + b) % 0x1_0000_0000
  {
    var q := a / 0x1_0000_0000;
    DivMod(a, 0x1_0000_0000);
    var low := 33 * (a % 0x1_0000_0000) + b;
    assert 33 * a + b == low + 33 * q * 0x1_0000_0000;
    DivMod(low, 0x1_0000_0000);
    DivMod(33 * a + b, 0x1_0000_0000);
    SameRemainder((33 * a + b) / 0x1_0000_0000, (33 * a + b) % 0x1_0000_0000, low / 0x1_0000_0000 + 33 * q,
      low % 0x1_0000_0000, 0x1_0000_0000);
  }

  /** The hash is the key as a number to the base 33, with 5381 in front, in 32 bits. */
  lemma {:induction false} HashIsNumber(key: Key)
    ensures Hash(key) == (5381 * Power33(|key|) + Digits(key)) % 0x1_0000_0000
    decreases |key|
  {
    if key != [] {
      var n := |key| - 1;
      var front, last := key[..n], key[n];
      assert key == front + [last];
      HashIsNumber(front);
      DigitsLast(front, last);
      Scaled(5381, Power33(n));
      WrapStep(5381 * Power33(n) + Digits(front), last);
    } else {
      assert Power33(0) == 1 && Digits(key) == 0;
    }
  }

  /** The loop of hash32_djb2. */
  method Djb2(key: Key) returns (hash: nat)
    ensures hash == Hash(key)
  {
    hash := 5381;
    for i := 0 to |key|
      invariant hash == Hash(key[..i])
    {
      assert key[..i + 1][..i] == key[..i];
      hash := (33 * hash + key[i]) % 0x1_0000_0000;
    }
    assert key[..|key|] == key;
  }

  // ----- Positions -----

  function And(a: nat, b: nat): nat
    decreases a
  {
    if a == 0 || b == 0 then 0 else 2 * And(a / 2, b / 2) + (a % 2) * (b % 2)
  }

  ghost predicate PowerOfTwo(n: nat) {
    n == 1 || (n > 1 && n % 2 == 0 && PowerOfTwo(n / 2))
  }

  /** GET_POOL_POS */
  function Position(hash: nat, capacity: nat): nat
    requires capacity > 0
  {
    And(hash, capacity - 1)
  }

  function Home(key: Key, capacity: nat): nat
    requires capacity > 0
  {
    Position(Hash(key), capacity)
  }

  lemma {:induction false} MaskBelow(hash: nat, capacity: nat)
    requires PowerOfTwo(capacity)
    ensures Position(hash, capacity) < capacity
    decreases capacity
  {
    if capacity > 1 && hash > 0 {
      MaskBelow(hash / 2, capacity / 2);
      assert (capacity - 1) / 2 == capacity / 2 - 1;
    }
  }

  /** Doubling the capacity leaves an item where it is or moves it up by the old one. */
  lemma {:induction false} PositionDoubles(hash: nat, capacity: nat)
    requires PowerOfTwo(capacity)
    ensures Position(hash, 2 * capacity) == Position(hash, capacity) ||
            Position(hash, 2 * capacity) == Position(hash, capacity) + capacity
    decreases capacity
  {
    if hash > 0 {
      assert (2 * capacity - 1) / 2 == capacity - 1;
      if capacity > 1 {
        PositionDoubles(hash / 2, capacity / 2);
        assert (capacity - 1) / 2 == capacity / 2 - 1;
      } else {
        assert And(hash / 2, 0) == 0;
      }
    }
  }

  /** The mask takes the remainder. */
  lemma {:induction false} PositionIsRemainder(hash: nat, capacity: nat)
    requires PowerOfTwo(capacity)
    ensures Position(hash, capacity) == hash % capacity
    decreases capacity
  {
    hide And;
    if capacity == 1 || hash == 0 {
      MaskOfZero(hash, capacity - 1);
      ZeroRemainder(hash, capacity);
    } else {
      var half := capacity / 2;
      Halved(capacity);
      PositionIsRemainder(hash / 2, half);
      PositionHalves(hash, capacity);
      RemainderHalves(hash, half);
      hide *;
    }
  }

  lemma ZeroRemainder(n: nat, d: nat)
    requires d == 1 || (n == 0 && d > 0)
    ensures n % d == 0
  {
  }

  lemma MaskOfZero(a: nat, b: nat)
    requires a == 0 || b == 0
    ensures And(a, b) == 0
  {
  }

  lemma Halved(capacity: nat)
    requires PowerOfTwo(capacity) && capacity > 1
    ensures 2 * (capacity / 2) == capacity && capacity / 2 > 0 && PowerOfTwo(capacity / 2)
  {
  }

  lemma PositionHalves(hash: nat, capacity: nat)
    requires PowerOfTwo(capacity) && capacity > 1 && hash > 0
    ensures Position(hash, capacity) == 2 * Position(hash / 2, capacity / 2) + hash % 2
  {
    assert (capacity - 1) / 2 == capacity / 2 - 1 && (capacity - 1) % 2 == 1;
  }

  lemma RemainderHalves(n: nat, c: nat)
    requires c > 0
    ensures n % (2 * c) == 2 * (n / 2 % c) + n % 2
  {
    var half := n / 2;
    var d := 2 * c;
    DivMod(half, c);
    DivMod(n, d);
    assert n == 2 * half + n % 2;
    SameRemainder(n / d, n % d, half / c, 2 * (half % c) + n % 2, d) by {
      Doubled(half / c, c);
    }
  }

  lemma DivMod(n: nat, d: nat)
    requires d > 0
    ensures n == n / d * d + n % d && 0 <= n % d < d && n / d >= 0
  {
  }

  lemma Doubled(q: nat, c: nat)
    ensures q * (2 * c) == 2 * (q * c)
  {
  }

  lemma SameRemainder(p: nat, s: nat, q: nat, r: nat, d: nat)
    requires s < d && r < d && p * d + s == q * d + r
    ensures s == r
  {
    if p < q {
      Spaced(p, q, d);
    } else if q < p {
      Spaced(q, p, d);
    }
  }

  lemma Spaced(a: nat, b: nat, d: nat)
    requires a < b
    ensures a * d + d <= b * d
  {
    assert (b - a - 1) * d >= 0;
    assert b * d == a * d + d + (b - a - 1) * d;
  }

  // ----- Rows: what the chains hold -----

  ghost predicate Unique(row: seq<Entry>) {
    forall i, j :: 0 <= i < j < |row| ==> row[i].key != row[j].key
  }

  ghost predicate Binds(m: map<Key, nat>, e: Entry) {
    e.key in m && m[e.key] == e.val
  }

  /** Row b of n has exactly the bindings whose key belongs there, no key twice. */
  ghost predicate RowOf(row: seq<Entry>, b: nat, n: nat, m: map<Key, nat>)
    requires n > 0
  {
    Unique(row) && forall e: Entry :: e in row <==> Binds(m, e) && Home(e.key, n) == b
  }

  /** The rows hold the map, every binding in the row of its key. */
  ghost predicate Represents(rows: seq<seq<Entry>>, m: map<Key, nat>) {
    PowerOfTwo(|rows|) && forall b :: 0 <= b < |rows| ==> RowOf(rows[b], b, |rows|, m)
  }

  function Index(row: seq<Entry>, key: Key): (i: nat)
    ensures i <= |row|
    ensures i < |row| ==> row[i].key == key
    ensures forall j :: 0 <= j < i ==> row[j].key != key
  {
    if row == [] || row[0].key == key then 0 else Index(row[1..], key) + 1
  }

  function Put(row: seq<Entry>, key: Key, val: nat): seq<Entry> {
    var i := Index(row, key);
    if i < |row| then row[i := Entry(key, val)] else row + [Entry(key, val)]
  }

  function Drop(row: seq<Entry>, key: Key): seq<Entry> {
    var i := Index(row, key);
    if i < |row| then row[..i] + row[i + 1..] else row
  }

  function Value(row: seq<Entry>, key: Key): nat {
    var i := Index(row, key);
    if i < |row| then row[i].val else 0
  }

  ghost predicate Absent(row: seq<Entry>, key: Key) {
    forall k :: 0 <= k < |row| ==> row[k].key != key
  }

  lemma Missing(row: seq<Entry>, e: Entry)
    requires Absent(row, e.key)
    ensures e !in row
  {
  }

  lemma LookupAgrees(rows: seq<seq<Entry>>, m: map<Key, nat>, key: Key)
    requires Represents(rows, m) && Home(key, |rows|) < |rows|
    ensures var row := rows[Home(key, |rows|)];
      && (Index(row, key) < |row| <==> key in m)
      && Value(row, key) == if key in m then m[key] else 0
  {
    var p := Home(key, |rows|);
    var row := rows[p];
    var i := Index(row, key);
    assert RowOf(row, p, |rows|, m);
    hide Home, PowerOfTwo, Hash;
    if i < |row| {
      assert row[i] in row;
    } else {
      assert Absent(row, key);
      if key in m {
        Missing(row, Entry(key, m[key]));
      }
    }
  }

  lemma PutRepresents(rows: seq<seq<Entry>>, m: map<Key, nat>, key: Key, val: nat)
    requires Represents(rows, m) && Home(key, |rows|) < |rows|
    ensures var p := Home(key, |rows|); Represents(rows[p := Put(rows[p], key, val)], m[key := val])
  {
    var n := |rows|;
    var p := Home(key, n);
    var row := rows[p];
    PutUnique(row, key, val);
    hide Home, PowerOfTwo, Hash, Put, Unique;
    var rows' := rows[p := Put(row, key, val)];
    forall b | 0 <= b < n ensures RowOf(rows'[b], b, n, m[key := val]) {
      assert RowOf(rows[b], b, n, m);
      if b == p {
        forall e: Entry ensures e in Put(row, key, val) <==> Binds(m[key := val], e) && Home(e.key, n) == b {
          PutMember(row, key, val, e);
        }
      }
    }
  }

  lemma {:induction false} IndexNext(row: seq<Entry>, key: Key, i: nat)
    requires i < |row| && i <= Index(row, key)
    ensures if row[i].key == key then Index(row, key) == i else i + 1 <= Index(row, key)
  {
  }

  lemma PutUnique(row: seq<Entry>, key: Key, val: nat)
    requires Unique(row)
    ensures Unique(Put(row, key, val))
  {
  }

  lemma PutMember(row: seq<Entry>, key: Key, val: nat, e: Entry)
    requires Unique(row)
    ensures e in Put(row, key, val) <==> e == Entry(key, val) || (e in row && e.key != key)
  {
    var row' := Put(row, key, val);
    var i := Index(row, key);
    assert row'[i] == Entry(key, val);
    if e in row && e.key != key {
      var k :| 0 <= k < |row| && row[k] == e;
      assert row'[k] == e;
    }
    if e in row' {
      var k :| 0 <= k < |row'| && row'[k] == e;
      assert k != i ==> k < |row| && row[k] == e;
    }
  }

  lemma DropRepresents(rows: seq<seq<Entry>>, m: map<Key, nat>, key: Key)
    requires Represents(rows, m) && Home(key, |rows|) < |rows|
    ensures var p := Home(key, |rows|); Represents(rows[p := Drop(rows[p], key)], m - {key})
  {
    var n := |rows|;
    var p := Home(key, n);
    var row := rows[p];
    DropUnique(row, key);
    hide Home, PowerOfTwo, Hash, Drop, Unique;
    var rows' := rows[p := Drop(row, key)];
    forall b | 0 <= b < n ensures RowOf(rows'[b], b, n, m - {key}) {
      assert RowOf(rows[b], b, n, m);
      if b == p {
        forall e: Entry ensures e in Drop(row, key) <==> Binds(m - {key}, e) && Home(e.key, n) == b {
          DropMember(row, key, e);
        }
      }
    }
  }

  lemma DropUnique(row: seq<Entry>, key: Key)
    requires Unique(row)
    ensures Unique(Drop(row, key))
  {
  }

  lemma DropMember(row: seq<Entry>, key: Key, e: Entry)
    requires Unique(row)
    ensures e in Drop(row, key) <==> e in row && e.key != key
  {
    var row' := Drop(row, key);
    var i := Index(row, key);
    if e in row && e.key != key {
      var k :| 0 <= k < |row| && row[k] == e;
      assert row'[if k < i then k else k - 1] == e;
    }
    if e in row' {
      var k :| 0 <= k < |row'| && row'[k] == e;
      assert row[if k < i then k else k + 1] == e;
    }
  }

  // ----- Rehashing -----

  /** The entries of row b that stay when the capacity becomes n, in order. */
  function Stays(row: seq<Entry>, b: nat, n: nat): seq<Entry>
    requires n > 0
  {
    if row == [] then [] else
      var last := row[|row| - 1];
      Stays(row[..|row| - 1], b, n) + if Home(last.key, n) == b then [last] else []
  }

  /** The entries of row b that leave, each put in front of those before it. */
  function Leaves(row: seq<Entry>, b: nat, n: nat): seq<Entry>
    requires n > 0
  {
    if row == [] then [] else
      var last := row[|row| - 1];
      (if Home(last.key, n) == b then [] else [last]) + Leaves(row[..|row| - 1], b, n)
  }

  /** The rows after the pivot has passed the first `done` of them. */
  function Spread(rows: seq<seq<Entry>>, done: nat): (r: seq<seq<Entry>>)
    requires done <= |rows| && rows != []
    ensures |r| == 2 * |rows|
  {
    var n := |rows|;
    seq(2 * n, b requires 0 <= b < 2 * n =>
      if b < done then Stays(rows[b], b, 2 * n)
      else if b < n then rows[b]
      else if b < n + done then Leaves(rows[b - n], b - n, 2 * n)
      else [])
  }

  lemma {:induction false} SplitMember(row: seq<Entry>, b: nat, n: nat, e: Entry)
    requires n > 0
    ensures e in Stays(row, b, n) <==> e in row && Home(e.key, n) == b
    ensures e in Leaves(row, b, n) <==> e in row && Home(e.key, n) != b
  {
    hide Home;
    if row != [] {
      var init, last := row[..|row| - 1], row[|row| - 1];
      assert row == init + [last];
      SplitMember(init, b, n, e);
    }
  }

  lemma UniqueJoin(row: seq<Entry>, last: Entry)
    requires Unique(row) && forall e: Entry :: e in row ==> e.key != last.key
    ensures Unique(row + [last]) && Unique([last] + row)
  {
    forall i | 0 <= i < |row| ensures row[i].key != last.key {
      assert row[i] in row;
    }
  }

  lemma {:induction false} SplitUnique(row: seq<Entry>, b: nat, n: nat)
    requires n > 0 && Unique(row)
    ensures Unique(Stays(row, b, n)) && Unique(Leaves(row, b, n))
  {
    hide Home;
    if row != [] {
      var init, last := row[..|row| - 1], row[|row| - 1];
      SplitUnique(init, b, n);
      var s, l := Stays(init, b, n), Leaves(init, b, n);
      forall e: Entry | e in s || e in l ensures e.key != last.key {
        SplitMember(init, b, n, e);
        var k :| 0 <= k < |init| && init[k] == e;
        assert row[k] == e;
      }
      UniqueJoin(s, last);
      UniqueJoin(l, last);
    }
  }

  lemma HomeDoubles(key: Key, n: nat)
    requires PowerOfTwo(n)
    ensures Home(key, n) < n && Home(key, 2 * n) in {Home(key, n), Home(key, n) + n}
  {
    MaskBelow(Hash(key), n);
    PositionDoubles(Hash(key), n);
  }

  lemma SplitRow(row: seq<Entry>, b: nat, n: nat, m: map<Key, nat>)
    requires PowerOfTwo(n) && b < n && RowOf(row, b, n, m)
    ensures RowOf(Stays(row, b, 2 * n), b, 2 * n, m) && RowOf(Leaves(row, b, 2 * n), b + n, 2 * n, m)
  {
    SplitUnique(row, b, 2 * n);
    hide Home, Unique, Stays, Leaves;
    forall e: Entry
      ensures e in Stays(row, b, 2 * n) <==> Binds(m, e) && Home(e.key, 2 * n) == b
      ensures e in Leaves(row, b, 2 * n) <==> Binds(m, e) && Home(e.key, 2 * n) == b + n
    {
      SplitMember(row, b, 2 * n, e);
      HomeDoubles(e.key, n);
    }
  }

  /** Doubling the pool keeps the map. */
  lemma SpreadRepresents(rows: seq<seq<Entry>>, m: map<Key, nat>)
    requires Represents(rows, m)
    ensures Represents(Spread(rows, |rows|), m)
  {
    var n := |rows|;
    var wide := Spread(rows, n);
    assert PowerOfTwo(2 * n);
    hide RowOf, Stays, Leaves;
    forall b | 0 <= b < 2 * n ensures RowOf(wide[b], b, 2 * n, m) {
      var p := if b < n then b else b - n;
      SplitRow(rows[p], p, n, m);
    }
  }

  // ----- Iteration -----

  lemma {:induction false} FlattenHolds(rows: seq<seq<Entry>>, b: nat, e: Entry)
    requires b < |rows| && e in rows[b]
    ensures e in Flatten(rows)
  {
    if b > 0 {
      FlattenHolds(rows[1..], b - 1, e);
    }
  }

  lemma {:induction false} FlattenComesFrom(rows: seq<seq<Entry>>, e: Entry) returns (b: nat)
    requires e in Flatten(rows)
    ensures b < |rows| && e in rows[b]
  {
    if e in rows[0] {
      b := 0;
    } else {
      b := FlattenComesFrom(rows[1..], e);
      b := b + 1;
    }
  }

  lemma {:induction false} FlattenUnique(rows: seq<seq<Entry>>, m: map<Key, nat>, n: nat, from: nat)
    requires n > 0 && forall b :: 0 <= b < |rows| ==> RowOf(rows[b], from + b, n, m)
    ensures Unique(Flatten(rows))
  {
    hide Home;
    if rows != [] {
      var rest := rows[1..];
      forall b | 0 <= b < |rest| ensures RowOf(rest[b], from + 1 + b, n, m) {
        assert RowOf(rows[b + 1], from + (b + 1), n, m);
      }
      FlattenUnique(rest, m, n, from + 1);
      var f := Flatten(rest);
      assert RowOf(rows[0], from + 0, n, m);
      forall i, j | 0 <= i < |rows[0]| && 0 <= j < |f| ensures rows[0][i].key != f[j].key {
        var b := FlattenComesFrom(rest, f[j]);
        assert RowOf(rest[b], from + 1 + b, n, m) && f[j] in rest[b] && rows[0][i] in rows[0];
      }
    }
  }

  function Keys(s: seq<Entry>): set<Key> {
    if s == [] then {} else Keys(s[..|s| - 1]) + {s[|s| - 1].key}
  }

  lemma {:induction false} KeysHave(s: seq<Entry>, key: Key)
    ensures key in Keys(s) <==> !Absent(s, key)
  {
    if s != [] {
      var init, last := s[..|s| - 1], s[|s| - 1];
      KeysHave(init, key);
      if !Absent(init, key) {
        var k :| 0 <= k < |init| && init[k].key == key;
        assert s[k].key == key;
      }
    }
  }

  lemma {:induction false} KeysCount(s: seq<Entry>)
    requires Unique(s)
    ensures |Keys(s)| == |s|
  {
    if s != [] {
      var init, last := s[..|s| - 1], s[|s| - 1];
      KeysCount(init);
      KeysHave(init, last.key);
    }
  }

  /** The iterator's order holds each binding of the map exactly once. */
  lemma FlattenOnce(rows: seq<seq<Entry>>, m: map<Key, nat>)
    requires Represents(rows, m)
    ensures Unique(Flatten(rows)) && |Flatten(rows)| == |m|
    ensures forall e: Entry :: e in Flatten(rows) <==> Binds(m, e)
  {
    var f, n := Flatten(rows), |rows|;
    FlattenUnique(rows, m, n, 0);
    forall e: Entry ensures e in f <==> Binds(m, e) {
      if e in f {
        var b := FlattenComesFrom(rows, e);
        assert RowOf(rows[b], b, n, m);
      } else {
        MaskBelow(Hash(e.key), n);
        var b := Home(e.key, n);
        assert RowOf(rows[b], b, n, m);
        if e in rows[b] {
          FlattenHolds(rows, b, e);
        }
      }
    }
    hide *;
    BindingsCount(f, m);
  }

  lemma BindingsCount(f: seq<Entry>, m: map<Key, nat>)
    requires Unique(f) && forall e: Entry :: e in f <==> Binds(m, e)
    ensures |f| == |m|
  {
    KeysCount(f);
    forall key ensures key in Keys(f) <==> key in m {
      KeysHave(f, key);
      if key in m {
        assert Binds(m, Entry(key, m[key]));
      } else {
        forall k | 0 <= k < |f| ensures f[k].key != key {
          assert f[k] in f;
        }
      }
    }
    assert Keys(f) == m.Keys;
    assert |m| == |m.Keys|;
  }

  // ----- The map -----

  /** struct hash_map_item_s */
  class Item {
    var next: Item?
    const hash: nat
    const key: Key
    var val: nat

    constructor (hash: nat, key: Key, val: nat)
      ensures this.hash == hash && this.key == key && this.val == val && next == null
    {
      this.hash, this.key, this.val, next := hash, key, val, null;
    }
  }

  ghost function At(chain: seq<Item>, k: nat): Item? {
    if k < |chain| then chain[k] else null
  }

  /** Names that never change: the keys of the chain are those of the row. */
  ghost predicate Named(chain: seq<Item>, row: seq<Entry>) {
    && |chain| == |row|
    && forall k :: 0 <= k < |row| ==> chain[k].key == row[k].key && chain[k].hash == Hash(row[k].key)
  }

  /** The links from head spell out the chain, and its items hold the row's values. */
  ghost predicate Spells(head: Item?, chain: seq<Item>, row: seq<Entry>)
    reads chain
  {
    && |chain| == |row| && head == At(chain, 0)
    && forall k :: 0 <= k < |chain| ==> chain[k].next == At(chain, k + 1) && chain[k].val == row[k].val
  }

  ghost predicate Good(head: Item?, chain: seq<Item>, row: seq<Entry>, items: set<object>)
    reads items
  {
    (forall x :: x in chain ==> x in items) && Named(chain, row) && Spells(head, chain, row)
  }

  ghost predicate Held(pool: seq<Item?>, chains: seq<seq<Item>>, rows: seq<seq<Entry>>, items: set<object>)
    reads items
  {
    && |pool| == |chains| == |rows|
    && forall b :: 0 <= b < |pool| ==> Good(pool[b], chains[b], rows[b], items)
  }

  ghost predicate Disjoint(s: seq<Item>, t: seq<Item>) {
    forall x :: x in s ==> x !in t
  }

  ghost predicate Nowhere(chains: seq<seq<Item>>, x: Item) {
    forall b :: 0 <= b < |chains| ==> x !in chains[b]
  }

  /** No item is in two places. */
  ghost predicate Separated(chains: seq<seq<Item>>) {
    && (forall b :: 0 <= b < |chains| ==> Distinct(chains[b]))
    && (forall b, c :: 0 <= b < |chains| && 0 <= c < |chains| && b != c ==> Disjoint(chains[b], chains[c]))
  }

  lemma NamedDistinct(chain: seq<Item>, row: seq<Entry>)
    requires Named(chain, row) && Unique(row)
    ensures Distinct(chain)
  {
  }

  lemma NamedHome(chain: seq<Item>, row: seq<Entry>, x: Item, b: nat, n: nat, m: map<Key, nat>)
    requires n > 0 && Named(chain, row) && x in chain && RowOf(row, b, n, m)
    ensures Home(x.key, n) == b
  {
    var k :| 0 <= k < |chain| && chain[k] == x;
    assert row[k] in row;
  }

  lemma PlacedSeparated(chains: seq<seq<Item>>, rows: seq<seq<Entry>>, m: map<Key, nat>)
    requires Represents(rows, m) && |chains| == |rows|
    requires forall b :: 0 <= b < |chains| ==> Named(chains[b], rows[b])
    ensures Separated(chains)
  {
    var n := |rows|;
    assert n > 0;
    forall b | 0 <= b < n ensures Distinct(chains[b]) {
      assert RowOf(rows[b], b, n, m);
      NamedDistinct(chains[b], rows[b]);
    }
    hide Home, PowerOfTwo, Hash, Named, Distinct, RowOf;
    forall b, x | 0 <= b < n && x in chains[b] ensures Home(x.key, n) == b {
      NamedHome(chains[b], rows[b], x, b, n, m);
    }
  }

  lemma EnrolRepresents(rows: seq<seq<Entry>>, m: map<Key, nat>, key: Key, val: nat, p: nat)
    requires Represents(rows, m) && key !in m && p < |rows| && p == Home(key, |rows|)
    ensures Represents(rows[p := rows[p] + [Entry(key, val)]], m[key := val]) && |m[key := val]| == |m| + 1
    ensures Index(rows[p], key) == |rows[p]|
  {
    LookupAgrees(rows, m, key);
    PutRepresents(rows, m, key, val);
    assert m[key := val].Keys == m.Keys + {key};
  }

  lemma RebindRepresents(rows: seq<seq<Entry>>, m: map<Key, nat>, key: Key, val: nat, p: nat)
    requires Represents(rows, m) && key in m && p < |rows| && p == Home(key, |rows|)
    ensures Index(rows[p], key) < |rows[p]| && |m[key := val]| == |m|
    ensures Represents(rows[p := rows[p][Index(rows[p], key) := Entry(key, val)]], m[key := val])
  {
    LookupAgrees(rows, m, key);
    PutRepresents(rows, m, key, val);
    assert m[key := val].Keys == m.Keys;
  }

  lemma RemoveRepresents(rows: seq<seq<Entry>>, m: map<Key, nat>, key: Key, p: nat)
    requires Represents(rows, m) && key in m && p < |rows| && p == Home(key, |rows|)
    ensures Index(rows[p], key) < |rows[p]| && |m - {key}| == |m| - 1
    ensures Represents(rows[p := Cut(rows[p], Index(rows[p], key))], m - {key})
  {
    LookupAgrees(rows, m, key);
    DropRepresents(rows, m, key);
    assert (m - {key}).Keys == m.Keys - {key};
  }

  lemma HeldNowhere(pool: seq<Item?>, chains: seq<seq<Item>>, rows: seq<seq<Entry>>, items: set<object>, x: Item)
    requires Held(pool, chains, rows, items) && x !in items
    ensures Nowhere(chains, x)
  {
    forall b | 0 <= b < |chains| ensures x !in chains[b] {
      assert Good(pool[b], chains[b], rows[b], items);
    }
  }

  lemma HeldSeparated(pool: seq<Item?>, chains: seq<seq<Item>>, rows: seq<seq<Entry>>, items: set<object>, m: map<Key,
      nat>)
    requires Held(pool, chains, rows, items) && Represents(rows, m)
    ensures Separated(chains)
  {
    forall b | 0 <= b < |chains| ensures Named(chains[b], rows[b]) {
      assert Good(pool[b], chains[b], rows[b], items);
    }
    hide *;
    PlacedSeparated(chains, rows, m);
  }

  function Cut<T>(s: seq<T>, i: nat): seq<T>
    requires i < |s|
  {
    s[..i] + s[i + 1..]
  }

  lemma CutMembers(chain: seq<Item>, i: nat, x: Item)
    requires i < |chain| && Distinct(chain) && x in Cut(chain, i)
    ensures x in chain && x != chain[i]
  {
    var cut := Cut(chain, i);
    var j :| 0 <= j < |cut| && cut[j] == x;
    assert chain[if j < i then j else j + 1] == x;
  }

  lemma CutDistinct(chain: seq<Item>, i: nat)
    requires i < |chain| && Distinct(chain)
    ensures Distinct(Cut(chain, i))
  {
  }

  lemma CutSeparated(chains: seq<seq<Item>>, b: nat, i: nat)
    requires Separated(chains) && b < |chains| && i < |chains[b]|
    ensures Separated(chains[b := Cut(chains[b], i)])
    ensures Nowhere(chains[b := Cut(chains[b], i)], chains[b][i])
  {
    var chain, cut := chains[b], Cut(chains[b], i);
    assert chain[i] in chain;
    CutDistinct(chain, i);
    forall x | x in cut ensures x in chain && x != chain[i] {
      CutMembers(chain, i, x);
    }
    hide Distinct, Cut;
    assert forall c :: 0 <= c < |chains| && c != b ==> Disjoint(chain, chains[c]) && Disjoint(chains[c], chain);
  }

  lemma MakeGood(head: Item?, chain: seq<Item>, row: seq<Entry>, items: set<object>)
    requires (forall x :: x in chain ==> x in items) && Named(chain, row) && Spells(head, chain, row)
    ensures Good(head, chain, row, items)
  {
  }

  lemma CutGood(chain: seq<Item>, row: seq<Entry>, items: set<object>, i: nat)
    requires Named(chain, row) && Distinct(chain) && i < |chain| && forall x :: x in chain ==> x in items
    ensures Named(Cut(chain, i), Cut(row, i)) && forall x :: x in Cut(chain, i) ==> x in items
  {
    forall x | x in Cut(chain, i) ensures x in items {
      CutMembers(chain, i, x);
    }
    CutNamed(chain, row, i);
  }

  lemma CutNamed(chain: seq<Item>, row: seq<Entry>, i: nat)
    requires Named(chain, row) && i < |chain|
    ensures Named(Cut(chain, i), Cut(row, i))
  {
  }

  /** Item i is out of the chain once its predecessor, or the head, points past it. */
  lemma CutSpells(head: Item?, chain: seq<Item>, row: seq<Entry>, i: nat)
    requires i < |chain| == |row| && (forall k :: 0 <= k < |chain| ==> chain[k].val == row[k].val)
    requires head == if i == 0 then At(chain, 1) else chain[0]
    requires forall k :: 0 <= k < |chain| && k != i ==>
      chain[k].next == if k == i - 1 then At(chain, i + 1) else At(chain, k + 1)
    ensures Spells(head, Cut(chain, i), Cut(row, i))
  {
    var cut, crow := Cut(chain, i), Cut(row, i);
    forall k | 0 <= k < |cut| ensures cut[k].next == At(cut, k + 1) && cut[k].val == crow[k].val {
      var j := if k < i then k else k + 1;
      assert cut[k] == chain[j] && crow[k] == row[j];
    }
  }

  lemma GoodAt(head: Item?, chain: seq<Item>, row: seq<Entry>, items: set<object>, i: nat)
    requires Good(head, chain, row, items) && i < |chain|
    ensures |row| == |chain| && chain[i].next == At(chain, i + 1) && chain[i] in items
    ensures chain[i].hash == Hash(chain[i].key) && row[i] == Entry(chain[i].key, chain[i].val)
  {
  }

  lemma AtIs(chain: seq<Item>, i: nat)
    requires i <= |chain|
    ensures (At(chain, i) != null <==> i < |chain|) && (i < |chain| ==> At(chain, i) == chain[i])
  {
  }

  lemma GoodHead(head: Item?, chain: seq<Item>, row: seq<Entry>, items: set<object>)
    requires Good(head, chain, row, items)
    ensures |row| == |chain| && head == At(chain, 0)
  {
  }

  lemma PrependGood(chain: seq<Item>, row: seq<Entry>, items: set<object>, item: Item)
    requires Good(item.next, chain, row, items) && item in items && item.hash == Hash(item.key)
    ensures Good(item, [item] + chain, [Entry(item.key, item.val)] + row, items)
  {
    hide Hash;
  }

  lemma AppendGood(head: Item?, chain: seq<Item>, row: seq<Entry>, items: set<object>, item: Item)
    requires Named(chain, row) && (forall x :: x in chain ==> x in items) && item in items &&
        item.hash == Hash(item.key)
    requires head == (if chain == [] then item else chain[0]) && item.next == null
    requires forall k :: 0 <= k < |chain| ==>
      chain[k].val == row[k].val && chain[k].next == if k == |chain| - 1 then item else At(chain, k + 1)
    ensures Good(head, chain + [item], row + [Entry(item.key, item.val)], items)
  {
    hide Hash;
  }

  lemma AssignGood(head: Item?, chain: seq<Item>, row: seq<Entry>, items: set<object>, i: nat, val: nat)
    requires Named(chain, row) && (forall x :: x in chain ==> x in items) && i < |chain|
    requires head == At(chain, 0) && forall k :: 0 <= k < |chain| ==>
      chain[k].next == At(chain, k + 1) && chain[k].val == if k == i then val else row[k].val
    ensures Good(head, chain, row[i := Entry(chain[i].key, val)], items)
  {
    hide Hash;
  }

  lemma ItemFacts(pool: seq<Item?>, chains: seq<seq<Item>>, rows: seq<seq<Entry>>, items: set<object>, b: nat, i: nat)
    requires Held(pool, chains, rows, items) && b < |chains| && i < |chains[b]|
    ensures |rows| == |chains| == |pool| && |rows[b]| == |chains[b]|
    ensures var x := chains[b][i]; x in items && x.hash == Hash(x.key) && rows[b][i] == Entry(x.key, x.val)
    ensures chains[b][i].next == At(chains[b], i + 1) && pool[b] == At(chains[b], 0)
  {
    GoodAt(pool[b], chains[b], rows[b], items, i);
  }

  /** One step of a walk that looks for key. */
  lemma SearchStep(head: Item?, chain: seq<Item>, row: seq<Entry>, items: set<object>, key: Key, i: nat, item: Item)
    requires Good(head, chain, row, items) && i <= Index(row, key) && i <= |chain| && item == At(chain, i)
    ensures i < |chain| == |row| && item == chain[i] && item.next == At(chain, i + 1)
    ensures item.hash == Hash(item.key) && item.val == row[i].val
    ensures if item.key == key then Index(row, key) == i else i + 1 <= Index(row, key)
  {
    hide Hash, Good, Index;
    GoodHead(head, chain, row, items);
    GoodAt(head, chain, row, items, i);
    IndexNext(row, key, i);
  }

  // ----- Surgery on the pool -----

  /** Where the walk along chain pos finds the key: its item and the one before. */
  method Search(pool: array<Item?>, pos: nat, hash: nat, key: Key, ghost chain: seq<Item>, ghost row: seq<Entry>,
                ghost items: set<object>)
    returns (prev: Item?, item: Item?)
    requires pos < pool.Length && hash == Hash(key) && Good(pool[pos], chain, row, items)
    ensures item == At(chain, Index(row, key))
    ensures prev == if Index(row, key) == 0 then null else chain[Index(row, key) - 1]
  {
    ghost var i: nat := 0;
    GoodHead(pool[pos], chain, row, items);
    hide *;
    item, prev := pool[pos], null;
    while item != null
      invariant i <= |chain| && item == At(chain, i)
      invariant prev == if i == 0 then null else chain[i - 1]
      invariant i <= Index(row, key) <= |row| == |chain|
      decreases |chain| - i
    {
      SearchStep(pool[pos], chain, row, items, key, i, item);
      if item.hash == hash {
        if item.key == key {
          return;
        }
      }
      prev := item;
      item := item.next;
      i := i + 1;
    }
    AtIs(chain, i);
  }

  /** Makes prev, or the pool, point past item. */
  method Bypass(pool: array<Item?>, ghost chains: seq<seq<Item>>, ghost rows: seq<seq<Entry>>, ghost items: set<object>,
                pos: nat, prev: Item?, item: Item, ghost i: nat)
    requires Held(pool[..], chains, rows, items) && Separated(chains) && pos < |chains| && i < |chains[pos]|
    requires item == chains[pos][i] && prev == if i == 0 then null else chains[pos][i - 1]
    modifies pool, items
    ensures Spells(pool[pos], Cut(chains[pos], i), Cut(rows[pos], i))
    ensures forall b :: 0 <= b < pool.Length && b != pos ==> Good(pool[b], chains[b], rows[b], items)
    ensures item.next == old(item.next) && item.val == old(item.val)
  {
    ghost var chain, row := chains[pos], rows[pos];
    assert Good(pool[pos], chain, row, items) && Distinct(chain);
    forall b | i > 0 && 0 <= b < pool.Length && b != pos ensures chain[i - 1] !in chains[b] {
      assert Disjoint(chain, chains[b]) && chain[i - 1] in chain;
    }
    hide Separated, Named, Hash;
    if prev != null {
      prev.next := item.next;
    } else {
      pool[pos] := item.next;
    }
    assert Spells(pool[pos], Cut(chain, i), Cut(row, i)) by {
      CutSpells(pool[pos], chain, row, i);
    }
    hide Spells, Distinct, Cut;
    forall b | 0 <= b < pool.Length && b != pos ensures Good(pool[b], chains[b], rows[b], items) {
      assert old(Good(pool[b], chains[b], rows[b], items));
    }
  }

  /** Takes item, the i-th of its chain, out of it. */
  method Unlink(pool: array<Item?>, ghost chains: seq<seq<Item>>, ghost rows: seq<seq<Entry>>, ghost items: set<object>,
                pos: nat, prev: Item?, item: Item, ghost i: nat)
    requires Held(pool[..], chains, rows, items) && Separated(chains) && pos < |chains| && i < |chains[pos]|
    requires item == chains[pos][i] && prev == if i == 0 then null else chains[pos][i - 1]
    modifies pool, items
    ensures Held(pool[..], chains[pos := Cut(chains[pos], i)], rows[pos := Cut(rows[pos], i)], items)
    ensures item.next == old(item.next) && item.val == old(item.val)
  {
    ghost var chain, row := chains[pos], rows[pos];
    ghost var cut, crow := Cut(chain, i), Cut(row, i);
    assert Good(pool[pos], chain, row, items) && Distinct(chain);
    CutGood(chain, row, items, i);
    hide Good, Separated, Cut, Distinct, Named, Spells;
    Bypass(pool, chains, rows, items, pos, prev, item, i);
    MakeGood(pool[pos], cut, crow, items);
  }

  /** Puts item in front of chain pos. */
  method Prepend(pool: array<Item?>, ghost chains: seq<seq<Item>>, ghost rows: seq<seq<Entry>>,
      ghost items: set<object>,
                 pos: nat, item: Item)
    requires Held(pool[..], chains, rows, items) && pos < |chains| && Nowhere(chains, item)
    requires item in items && item.hash == Hash(item.key)
    modifies pool, items
    ensures Held(pool[..], chains[pos := [item] + chains[pos]],
                 rows[pos := [Entry(item.key, old(item.val))] + rows[pos]], items)
  {
    ghost var chain, row := chains[pos], rows[pos];
    ghost var e := Entry(item.key, item.val);
    assert Good(pool[pos], chain, row, items) && item !in chain;
    hide Hash, Spells, Named;
    item.next := pool[pos];
    pool[pos] := item;
    PrependGood(chain, row, items, item);
    forall b | 0 <= b < pool.Length && b != pos ensures Good(pool[b], chains[b], rows[b], items) {
      assert old(Good(pool[b], chains[b], rows[b], items));
    }
  }

  /** Puts a new item behind prev, the last of chain pos, or first in it. */
  method Append(pool: array<Item?>, ghost chains: seq<seq<Item>>, ghost rows: seq<seq<Entry>>, ghost items: set<object>,
                pos: nat, prev: Item?, item: Item)
    requires Held(pool[..], chains, rows, items) && Separated(chains) && pos < |chains| && Nowhere(chains, item)
    requires item !in items && item.next == null && item.hash == Hash(item.key)
    requires prev == if chains[pos] == [] then null else chains[pos][|chains[pos]| - 1]
    modifies pool, items
    ensures Held(pool[..], chains[pos := chains[pos] + [item]],
                 rows[pos := rows[pos] + [Entry(item.key, item.val)]], items + {item})
  {
    ghost var chain, row := chains[pos], rows[pos];
    ghost var e := Entry(item.key, item.val);
    assert Good(pool[pos], chain, row, items) && Distinct(chain);
    forall b | chain != [] && 0 <= b < pool.Length && b != pos ensures chain[|chain| - 1] !in chains[b] {
      assert Disjoint(chain, chains[b]) && chain[|chain| - 1] in chain;
    }
    hide Hash, Separated;
    if prev != null {
      prev.next := item;
    } else {
      pool[pos] := item;
    }
    AppendGood(pool[pos], chain, row, items + {item}, item);
    hide Spells, Named, Distinct;
    forall b | 0 <= b < pool.Length && b != pos ensures Good(pool[b], chains[b], rows[b], items + {item}) {
      assert old(Good(pool[b], chains[b], rows[b], items));
    }
  }

  /** Gives item, the i-th of its chain, another value. */
  method Assign(pool: array<Item?>, ghost chains: seq<seq<Item>>, ghost rows: seq<seq<Entry>>, ghost items: set<object>,
                pos: nat, item: Item, ghost i: nat, val: nat)
    requires Held(pool[..], chains, rows, items) && Separated(chains) && pos < |chains| && i < |chains[pos]|
    requires item == chains[pos][i]
    modifies items
    ensures Held(pool[..], chains, rows[pos := rows[pos][i := Entry(item.key, val)]], items)
  {
    ghost var chain, row := chains[pos], rows[pos];
    assert Good(pool[pos], chain, row, items) && Distinct(chain);
    forall b | 0 <= b < pool.Length && b != pos ensures item !in chains[b] {
      assert Disjoint(chain, chains[b]) && chain[i] in chain;
    }
    hide Hash, Separated;
    item.val := val;
    AssignGood(pool[pos], chain, row, items, i, val);
    hide Spells, Named, Distinct;
    forall b | 0 <= b < pool.Length && b != pos ensures Good(pool[b], chains[b], rows[b], items) {
      assert old(Good(pool[b], chains[b], rows[b], items));
    }
  }

  lemma PrependSeparated(chains: seq<seq<Item>>, b: nat, x: Item)
    requires Separated(chains) && b < |chains| && Nowhere(chains, x)
    ensures Separated(chains[b := [x] + chains[b]])
  {
    var chain := chains[b];
    assert x !in chain;
    assert Distinct([x] + chain);
    hide Distinct;
    forall c | 0 <= c < |chains| && c != b
      ensures Disjoint([x] + chain, chains[c]) && Disjoint(chains[c], [x] + chain)
    {
      assert Disjoint(chain, chains[c]) && Disjoint(chains[c], chain) && x !in chains[c];
    }
  }

  lemma CutFacts(chain: seq<Item>, k: nat)
    requires k < |chain|
    ensures |Cut(chain, k)| == |chain| - 1 && (k > 0 ==> Cut(chain, k)[k - 1] == chain[k - 1])
  {
  }

  /** The rows after entry i has gone from row pivot to the front of row target. */
  function Moved(rows: seq<seq<Entry>>, pivot: nat, target: nat, i: nat): seq<seq<Entry>>
    requires pivot < |rows| && target < |rows| && i < |rows[pivot]|
  {
    rows[pivot := Cut(rows[pivot], i)][target := [rows[pivot][i]] + rows[target]]
  }

  /** Takes item out of chain pivot and puts it in front of chain target. */
  method Relocate(pool: array<Item?>, ghost chains: seq<seq<Item>>, ghost rows: seq<seq<Entry>>,
      ghost items: set<object>,
                  pivot: nat, target: nat, prev: Item?, item: Item, ghost i: nat)
    returns (temp: Item?, ghost chains': seq<seq<Item>>)
    requires Held(pool[..], chains, rows, items) && Separated(chains)
    requires pivot < |chains| && target < |chains| && pivot != target && i < |chains[pivot]|
    requires item == chains[pivot][i] && prev == if i == 0 then null else chains[pivot][i - 1]
    modifies pool, items
    ensures |chains'| == |chains| && Separated(chains')
    ensures Held(pool[..], chains', Moved(rows, pivot, target, i), items)
    ensures |chains'[pivot]| == |chains[pivot]| - 1 && temp == At(chains'[pivot], i)
    ensures i > 0 ==> chains'[pivot][i - 1] == chains[pivot][i - 1]
  {
    CutFacts(chains[pivot], i);
    assert Good(pool[pivot], chains[pivot], rows[pivot], items);
    ghost var cut := chains[pivot := Cut(chains[pivot], i)];
    CutSeparated(chains, pivot, i);
    PrependSeparated(cut, target, item);
    assert item.next == At(Cut(chains[pivot], i), i);
    assert rows[pivot][i] == Entry(item.key, item.val);
    hide Good, Separated, Held, Nowhere, Hash, Cut;
    ItemFacts(pool[..], chains, rows, items, pivot, i);
    Unlink(pool, chains, rows, items, pivot, prev, item, i);
    temp := item.next;
    Prepend(pool, cut, rows[pivot := Cut(rows[pivot], i)], items, target, item);
    chains' := cut[target := [item] + cut[target]];
  }

  /** The rows while the pivot has walked past i entries of its chain. */
  function Midway(rows: seq<seq<Entry>>, pivot: nat, n: nat, i: nat): (r: seq<seq<Entry>>)
    requires |rows| == 2 * n && pivot < n && i <= |rows[pivot]|
    ensures |r| == 2 * n
  {
    var row := rows[pivot];
    rows[pivot := Stays(row[..i], pivot, 2 * n) + row[i..]][pivot + n := Leaves(row[..i], pivot, 2 * n)]
  }

  lemma SplitStep(row: seq<Entry>, i: nat, b: nat, n: nat)
    requires n > 0 && i < |row|
    ensures Home(row[i].key, n) == b ==>
      && Stays(row[..i + 1], b, n) == Stays(row[..i], b, n) + [row[i]]
      && Leaves(row[..i + 1], b, n) == Leaves(row[..i], b, n)
    ensures Home(row[i].key, n) != b ==>
      && Stays(row[..i + 1], b, n) == Stays(row[..i], b, n)
      && Leaves(row[..i + 1], b, n) == [row[i]] + Leaves(row[..i], b, n)
  {
    hide Home;
    var r := row[..i + 1];
    assert r[..|r| - 1] == row[..i] && r[|r| - 1] == row[i];
  }

  lemma MidwayStep(rows: seq<seq<Entry>>, pivot: nat, n: nat, i: nat)
    requires |rows| == 2 * n && pivot < n && i < |rows[pivot]|
    ensures var row := rows[pivot];
      var mid, k := Midway(rows, pivot, n, i), |Stays(row[..i], pivot, 2 * n)|;
      var after, k' := Midway(rows, pivot, n, i + 1), |Stays(row[..i + 1], pivot, 2 * n)|;
      && k < |mid[pivot]| && mid[pivot][k] == row[i]
      && (Home(row[i].key, 2 * n) == pivot ==> after == mid && k' == k + 1)
      && (Home(row[i].key, 2 * n) != pivot ==>
            after == Moved(mid, pivot, pivot + n, k) && k' == k)
  {
    var row := rows[pivot];
    SplitStep(row, i, pivot, 2 * n);
    hide Home, Stays, Leaves;
    var stays := Stays(row[..i], pivot, 2 * n);
    assert row[i..] == [row[i]] + row[i + 1..];
    if Home(row[i].key, 2 * n) == pivot {
      assert stays + row[i..] == (stays + [row[i]]) + row[i + 1..];
    } else {
      assert Cut(stays + row[i..], |stays|) == stays + row[i + 1..];
    }
  }

  lemma MidwayEnds(rows: seq<seq<Entry>>, pivot: nat, n: nat)
    requires |rows| == 2 * n && pivot < n && rows[pivot + n] == []
    ensures Stays(rows[pivot][..0], pivot, 2 * n) == [] && Midway(rows, pivot, n, 0) == rows
    ensures Midway(rows, pivot, n, |rows[pivot]|) ==
            rows[pivot := Stays(rows[pivot], pivot, 2 * n)][pivot + n := Leaves(rows[pivot], pivot, 2 * n)]
  {
    var row := rows[pivot];
    assert row[..0] == [] && [] + row[0..] == row;
    assert row[..|row|] == row;
    assert Stays(row, pivot, 2 * n) + row[|row|..] == Stays(row, pivot, 2 * n);
  }

  ghost predicate HomeAt(row: seq<Entry>, b: nat, n: nat)
    requires n > 0
  {
    forall e: Entry :: e in row ==> Home(e.key, n) == b
  }

  /** Where rehashing puts an item of chain pivot. */
  lemma TargetOf(row: seq<Entry>, i: nat, pivot: nat, n: nat, hash: nat)
    requires PowerOfTwo(n) && i < |row| && hash == Hash(row[i].key) && HomeAt(row, pivot, n)
    ensures Position(hash, 2 * n) == Home(row[i].key, 2 * n)
    ensures Position(hash, 2 * n) == pivot || Position(hash, 2 * n) == pivot + n
  {
    assert row[i] in row;
    HomeDoubles(row[i].key, n);
  }

  /** The walk along chain pivot has passed i entries, k of which stay. */
  ghost predicate Walking(pool: seq<Item?>, chains: seq<seq<Item>>, rows: seq<seq<Entry>>, items: set<object>,
                          pivot: nat, n: nat, i: nat, k: nat, prev: Item?, item: Item?)
    reads items
    requires |rows| == 2 * n && pivot < n
  {
    var row := rows[pivot];
    && i <= |row| && |chains| == 2 * n && Separated(chains)
    && Held(pool, chains, Midway(rows, pivot, n, i), items)
    && k == |Stays(row[..i], pivot, 2 * n)| && |chains[pivot]| == k + (|row| - i)
    && item == At(chains[pivot], k) && prev == if k == 0 then null else chains[pivot][k - 1]
  }

  lemma WalkStarts(pool: seq<Item?>, chains: seq<seq<Item>>, rows: seq<seq<Entry>>, items: set<object>, pivot: nat,
      n: nat)
    requires Held(pool, chains, rows, items) && Separated(chains)
    requires |rows| == 2 * n && pivot < n && rows[pivot + n] == []
    ensures Walking(pool, chains, rows, items, pivot, n, 0, 0, null, pool[pivot])
  {
    hide Stays, Leaves, Midway, Separated;
    MidwayEnds(rows, pivot, n);
    assert Good(pool[pivot], chains[pivot], rows[pivot], items);
  }

  lemma WalkEnds(pool: seq<Item?>, chains: seq<seq<Item>>, rows: seq<seq<Entry>>, items: set<object>, pivot: nat,
      n: nat,
                 i: nat, k: nat, prev: Item?)
    requires |rows| == 2 * n && pivot < n && rows[pivot + n] == []
    requires Walking(pool, chains, rows, items, pivot, n, i, k, prev, null)
    ensures |chains| == 2 * n && Separated(chains)
    ensures Held(pool, chains, rows[pivot := Stays(rows[pivot], pivot, 2 * n)]
                                   [pivot + n := Leaves(rows[pivot], pivot, 2 * n)], items)
  {
    hide Stays, Leaves, Midway, Separated, Held, At;
    AtIs(chains[pivot], k);
    MidwayEnds(rows, pivot, n);
  }

  /** What the walk knows of the item it has come to. */
  lemma WalkAt(pool: seq<Item?>, chains: seq<seq<Item>>, rows: seq<seq<Entry>>, items: set<object>, pivot: nat, n: nat,
               i: nat, k: nat, prev: Item?, item: Item)
    requires |rows| == 2 * n && pivot < n && PowerOfTwo(n) && HomeAt(rows[pivot], pivot, n)
    requires Walking(pool, chains, rows, items, pivot, n, i, k, prev, item)
    ensures var row, mid := rows[pivot], Midway(rows, pivot, n, i);
      && i < |row| && |chains| == 2 * n && Held(pool, chains, mid, items) && Separated(chains)
      && k < |chains[pivot]| && item == chains[pivot][k] && prev == (if k == 0 then null else chains[pivot][k - 1])
      && |chains[pivot]| == |mid[pivot]| && item.next == At(chains[pivot], k + 1)
      && Position(item.hash, 2 * n) == Home(row[i].key, 2 * n)
      && (Position(item.hash, 2 * n) == pivot || Position(item.hash, 2 * n) == pivot + n)
  {
    hide Stays, Leaves, Midway, Separated, Held, Home, Hash, PowerOfTwo, At;
    AtIs(chains[pivot], k);
    MidwayStep(rows, pivot, n, i);
    ItemFacts(pool, chains, Midway(rows, pivot, n, i), items, pivot, k);
    TargetOf(rows[pivot], i, pivot, n, item.hash);
  }

  lemma WalkStays(pool: seq<Item?>, chains: seq<seq<Item>>, rows: seq<seq<Entry>>, items: set<object>, pivot: nat,
      n: nat,
                  i: nat, k: nat, prev: Item?, item: Item)
    requires |rows| == 2 * n && pivot < n && i < |rows[pivot]|
    requires Walking(pool, chains, rows, items, pivot, n, i, k, prev, item)
    requires Home(rows[pivot][i].key, 2 * n) == pivot && k < |chains[pivot]| && item == chains[pivot][k]
    requires item.next == At(chains[pivot], k + 1)
    ensures Walking(pool, chains, rows, items, pivot, n, i + 1, k + 1, item, item.next)
  {
    hide Stays, Leaves, Midway, Separated, Held, Home, At;
    MidwayStep(rows, pivot, n, i);
  }

  lemma WalkMoves(pool: seq<Item?>, chains: seq<seq<Item>>, rows: seq<seq<Entry>>, items: set<object>, pivot: nat,
      n: nat,
                  i: nat, k: nat, prev: Item?, item: Item?)
    requires |rows| == 2 * n && pivot < n && i < |rows[pivot]| && Home(rows[pivot][i].key, 2 * n) != pivot
    requires |chains| == 2 * n && Separated(chains) && k == |Stays(rows[pivot][..i], pivot, 2 * n)|
    requires k < |Midway(rows, pivot, n, i)[pivot]|
    requires Held(pool, chains, Moved(Midway(rows, pivot, n, i), pivot, pivot + n, k), items)
    requires |chains[pivot]| == k + (|rows[pivot]| - i) - 1 && item == At(chains[pivot], k)
    requires prev == if k == 0 then null else chains[pivot][k - 1]
    ensures Walking(pool, chains, rows, items, pivot, n, i + 1, k, prev, item)
  {
    hide Stays, Leaves, Midway, Separated, Held, Home, At, Moved;
    MidwayStep(rows, pivot, n, i);
  }

  /** The item leaves for its new chain. */
  method Leave(pool: array<Item?>, ghost chains: seq<seq<Item>>, ghost rows: seq<seq<Entry>>, ghost items: set<object>,
               pivot: nat, n: nat, ghost i: nat, ghost k: nat, prev: Item?, item: Item)
    returns (item': Item?, ghost chains': seq<seq<Item>>)
    requires |rows| == 2 * n && pivot < n && i < |rows[pivot]| && k < |Midway(rows, pivot, n, i)[pivot]|
    requires Held(pool[..], chains, Midway(rows, pivot, n, i), items) && Separated(chains) && |chains| == 2 * n
    requires k < |chains[pivot]| && item == chains[pivot][k] && prev == if k == 0 then null else chains[pivot][k - 1]
    requires k == |Stays(rows[pivot][..i], pivot, 2 * n)| && |chains[pivot]| == k + (|rows[pivot]| - i)
    requires Home(rows[pivot][i].key, 2 * n) == pivot + n
    modifies pool, items
    ensures Walking(pool[..], chains', rows, items, pivot, n, i + 1, k, prev, item')
  {
    hide *;
    item', chains' := Relocate(pool, chains, Midway(rows, pivot, n, i), items, pivot, pivot + n, prev, item, k);
    WalkMoves(pool[..], chains', rows, items, pivot, n, i, k, prev, item');
  }

  /** One item: it stays, or is taken out and put in front of its new chain. */
  method Place(pool: array<Item?>, ghost chains: seq<seq<Item>>, ghost rows: seq<seq<Entry>>, ghost items: set<object>,
               pivot: nat, n: nat, ghost i: nat, ghost k: nat, prev: Item?, item: Item)
    returns (prev': Item?, item': Item?, ghost chains': seq<seq<Item>>, ghost k': nat)
    requires |rows| == 2 * n && pivot < n && PowerOfTwo(n) && HomeAt(rows[pivot], pivot, n)
    requires Walking(pool[..], chains, rows, items, pivot, n, i, k, prev, item)
    modifies pool, items
    ensures i < |rows[pivot]| && Walking(pool[..], chains', rows, items, pivot, n, i + 1, k', prev', item')
  {
    WalkAt(pool[..], chains, rows, items, pivot, n, i, k, prev, item);
    assert k == |Stays(rows[pivot][..i], pivot, 2 * n)| && |chains[pivot]| == k + (|rows[pivot]| - i);
    hide *;
    var target := Position(item.hash, 2 * n);
    if pivot != target {
      prev', k' := prev, k;
      item', chains' := Leave(pool, chains, rows, items, pivot, n, i, k, prev, item);
    } else {
      WalkStays(pool[..], chains, rows, items, pivot, n, i, k, prev, item);
      prev', item', chains', k' := item, item.next, chains, k + 1;
    }
  }

  /** Spreads chain pivot over itself and the chain n further on. */
  method SpreadChain(pool: array<Item?>, ghost chains: seq<seq<Item>>, ghost rows: seq<seq<Entry>>,
                     ghost items: set<object>, pivot: nat, n: nat)
    returns (ghost chains': seq<seq<Item>>)
    requires Held(pool[..], chains, rows, items) && Separated(chains)
    requires |rows| == 2 * n && pivot < n && PowerOfTwo(n) && rows[pivot + n] == [] && HomeAt(rows[pivot], pivot, n)
    modifies pool, items
    ensures |chains'| == 2 * n && Separated(chains')
    ensures Held(pool[..], chains', rows[pivot := Stays(rows[pivot], pivot, 2 * n)]
                                        [pivot + n := Leaves(rows[pivot], pivot, 2 * n)], items)
  {
    ghost var i, k: nat := 0, 0;
    assert pool.Length == 2 * n;
    chains' := chains;
    hide *;
    WalkStarts(pool[..], chains, rows, items, pivot, n);
    var prev: Item?, item := null, pool[pivot];
    while item != null
      invariant Walking(pool[..], chains', rows, items, pivot, n, i, k, prev, item)
      decreases |rows[pivot]| - i
    {
      prev, item, chains', k := Place(pool, chains', rows, items, pivot, n, i, k, prev, item);
      i := i + 1;
    }
    WalkEnds(pool[..], chains', rows, items, pivot, n, i, k, prev);
  }

  lemma Widened(pool: seq<Item?>, wide: seq<Item?>, chains: seq<seq<Item>>, rows: seq<seq<Entry>>, items: set<object>)
    requires Held(pool, chains, rows, items) && pool != [] && Separated(chains)
    requires wide == pool + seq(|pool|, _ => null)
    ensures var more: seq<seq<Item>> := chains + seq(|chains|, _ => []);
      Held(wide, more, Spread(rows, 0), items) && Separated(more)
  {
    var n := |pool|;
    var more: seq<seq<Item>> := chains + seq(n, _ => []);
    var spread := Spread(rows, 0);
    hide Stays, Leaves;
    forall b | 0 <= b < 2 * n ensures Good(wide[b], more[b], spread[b], items) && Distinct(more[b]) {
      if b < n {
        assert Good(pool[b], chains[b], rows[b], items);
      }
    }
    hide Good, Distinct, Spread, Held;
    forall b, c | 0 <= b < 2 * n && 0 <= c < 2 * n && b != c ensures Disjoint(more[b], more[c]) {
      if b < n && c < n {
        assert Disjoint(chains[b], chains[c]);
      }
    }
  }

  lemma SpreadStep(rows: seq<seq<Entry>>, pivot: nat)
    requires pivot < |rows|
    ensures var n, before := |rows|, Spread(rows, pivot);
      && before[pivot] == rows[pivot] && before[pivot + n] == []
      && Spread(rows, pivot + 1) ==
         before[pivot := Stays(rows[pivot], pivot, 2 * n)][pivot + n := Leaves(rows[pivot], pivot, 2 * n)]
  {
    hide Stays, Leaves;
  }

  lemma RowAt(rows: seq<seq<Entry>>, m: map<Key, nat>, b: nat)
    requires Represents(rows, m) && b < |rows|
    ensures PowerOfTwo(|rows|) && HomeAt(rows[b], b, |rows|)
  {
    assert RowOf(rows[b], b, |rows|, m);
  }

  /** safe_realloc_zero for the pool */
  method Widen(pool: array<Item?>) returns (wide: array<Item?>)
    ensures fresh(wide) && wide[..] == pool[..] + seq(pool.Length, _ => null)
  {
    wide := new Item?[2 * pool.Length](_ => null);
    forall j | 0 <= j < pool.Length {
      wide[j] := pool[j];
    }
  }

  /** The pool's chains, each spread over two. */
  method SpreadAll(wide: array<Item?>, ghost chains: seq<seq<Item>>, ghost rows: seq<seq<Entry>>,
                   ghost items: set<object>, ghost m: map<Key, nat>)
    returns (ghost chains': seq<seq<Item>>)
    requires Represents(rows, m) && rows != [] && wide.Length == 2 * |rows|
    requires Held(wide[..], chains, Spread(rows, 0), items) && Separated(chains)
    modifies wide, items
    ensures Held(wide[..], chains', Spread(rows, |rows|), items)
  {
    hide *;
    var n, pivot := wide.Length / 2, 0;
    chains' := chains;
    while pivot < n
      invariant pivot <= n && Separated(chains') && Held(wide[..], chains', Spread(rows, pivot), items)
    {
      SpreadStep(rows, pivot);
      RowAt(rows, m, pivot);
      chains' := SpreadChain(wide, chains', Spread(rows, pivot), items, pivot, n);
      pivot := pivot + 1;
    }
  }

  class Table {
    var pool: array<Item?>
    var capacity: nat
    var count: nat
    ghost var items: set<object>
    ghost var chains: seq<seq<Item>>
    ghost var rows: seq<seq<Entry>>
    ghost var bindings: map<Key, nat>

    ghost predicate Shaped()
      reads this, pool, items
    {
      this !in items && capacity == pool.Length == |chains| == |rows| && Held(pool[..], chains, rows, items)
    }

    ghost predicate Valid()
      reads this, pool, items
    {
      Shaped() && Represents(rows, bindings) && count == |bindings|
    }

    /** hash_map_init */
    constructor ()
      ensures Valid() && bindings == map[] && capacity == 32 && fresh(pool) && items == {}
    {
      pool := new Item?[32](_ => null);
      capacity, count := 32, 0;
      items, bindings := {}, map[];
      chains, rows := seq(32, _ => []), seq(32, _ => []);
      assert PowerOfTwo(32) by {
        assert PowerOfTwo(2) && PowerOfTwo(4) && PowerOfTwo(8) && PowerOfTwo(16);
      }
    }

    /** hash_map_get */
    method Get(key: Key) returns (val: nat)
      requires Valid()
      ensures val == if key in bindings then bindings[key] else 0
    {
      var hash := Djb2(key);
      MaskBelow(hash, capacity);
      var pos := Position(hash, capacity);
      LookupAgrees(rows, bindings, key);
      ghost var row, chain, i: nat := rows[pos], chains[pos], 0;
      assert Good(pool[pos], chain, row, items);
      GoodHead(pool[pos], chain, row, items);
      hide Hash, Home, Position, Represents, PowerOfTwo, Held, Good, Index, At;
      var item := pool[pos];
      while item != null
        invariant i <= |chain| && item == At(chain, i) && i <= Index(row, key)
        decreases |chain| - i
      {
        SearchStep(pool[pos], chain, row, items, key, i, item);
        if item.hash == hash {
          if item.key == key {
            return item.val;
          }
        }
        item := item.next;
        i := i + 1;
      }
      AtIs(chain, i);
      return 0;
    }

    ghost method Settle(chains': seq<seq<Item>>, rows': seq<seq<Entry>>, items': set<object>, m: map<Key, nat>)
      requires this !in items' && capacity == pool.Length == |chains'| == |rows'| && Held(pool[..], chains', rows',
          items')
      requires Represents(rows', m) && count == |m|
      modifies this`chains, this`rows, this`items, this`bindings
      ensures Valid() && chains == chains' && rows == rows' && items == items' && bindings == m
    {
      hide Held, Represents;
      chains, rows, items, bindings := chains', rows', items', m;
    }

    /** Unlinks and forgets the item of key, which is the one Search found. */
    method Remove(pos: nat, prev: Item?, item: Item, ghost key: Key)
      requires Valid() && key in bindings && pos < capacity && pos == Home(key, capacity)
      requires item == At(chains[pos], Index(rows[pos], key))
      requires prev == if Index(rows[pos], key) == 0 then null else chains[pos][Index(rows[pos], key) - 1]
      modifies this, pool, items
      ensures Valid() && pool == old(pool) && items == old(items) && capacity == old(capacity)
      ensures bindings == old(bindings) - {key}
    {
      ghost var row, i, m := rows[pos], Index(rows[pos], key), bindings - {key};
      RemoveRepresents(rows, bindings, key, pos);
      HeldSeparated(pool[..], chains, rows, items, bindings);
      RowHead(pool[..], chains, rows, items, pos);
      assert Shaped() && count == |bindings| && item == chains[pos][i];
      hide Hash, Home, Position, Represents, PowerOfTwo, Held, Index, Separated, At, Cut;
      Unlink(pool, chains, rows, items, pos, prev, item, i);
      count := count - 1;
      Settle(chains[pos := Cut(chains[pos], i)], rows[pos := Cut(row, i)], items, m);
    }

    /** hash_map_delete */
    method Delete(key: Key) returns (val: nat)
      requires Valid()
      modifies this, pool, items
      ensures Valid() && pool == old(pool) && items == old(items) && capacity == old(capacity)
      ensures bindings == old(bindings) - {key}
      ensures val == if key in old(bindings) then old(bindings)[key] else 0
    {
      var hash := Djb2(key);
      MaskBelow(hash, capacity);
      var pos := Position(hash, capacity);
      LookupAgrees(rows, bindings, key);
      assert Good(pool[pos], chains[pos], rows[pos], items);
      hide Hash, Position, Represents, PowerOfTwo, Held, Good, Index, Spells, Named;
      var prev, item := Search(pool, pos, hash, key, chains[pos], rows[pos], items);
      GoodHead(pool[pos], chains[pos], rows[pos], items);
      val := 0;
      if item != null {
        GoodAt(pool[pos], chains[pos], rows[pos], items, Index(rows[pos], key));
        val := item.val;
        Remove(pos, prev, item, key);
      }
    }

    /** Gives key, which is bound, another value. */
    method Rebind(pos: nat, item: Item, key: Key, val: nat)
      requires Valid() && key in bindings && pos < capacity && pos == Home(key, capacity)
      requires item == At(chains[pos], Index(rows[pos], key))
      modifies this, pool, items
      ensures Valid() && pool == old(pool) && items == old(items) && capacity == old(capacity)
      ensures bindings == old(bindings)[key := val]
    {
      ghost var row, i, m := rows[pos], Index(rows[pos], key), bindings[key := val];
      RebindRepresents(rows, bindings, key, val, pos);
      HeldSeparated(pool[..], chains, rows, items, bindings);
      ItemFacts(pool[..], chains, rows, items, pos, i);
      assert Shaped() && count == |bindings| && item == chains[pos][i];
      hide Hash, Home, Position, Represents, PowerOfTwo, Held, Index, Separated, At;
      Assign(pool, chains, rows, items, pos, item, i, val);
      Settle(chains, rows[pos := row[i := Entry(key, val)]], items, m);
    }

    /** Binds a new key: its item goes behind prev, the last of its chain. */
    method Enrol(pos: nat, prev: Item?, hash: nat, key: Key, val: nat)
      requires Valid() && key !in bindings && pos < capacity && pos == Home(key, capacity) && hash == Hash(key)
      requires prev == if chains[pos] == [] then null else chains[pos][|chains[pos]| - 1]
      modifies this, pool, items
      ensures Valid() && pool == old(pool) && fresh(items - old(items)) && capacity == old(capacity)
      ensures bindings == old(bindings)[key := val]
    {
      ghost var row, m := rows[pos], bindings[key := val];
      EnrolRepresents(rows, bindings, key, val, pos);
      HeldSeparated(pool[..], chains, rows, items, bindings);
      assert Shaped() && count == |bindings|;
      hide Hash, Home, Position, Represents, PowerOfTwo, Held, Index, Separated, Nowhere;
      var item := new Item(hash, key, val);
      HeldNowhere(pool[..], chains, rows, items, item);
      count := count + 1;
      Append(pool, chains, rows, items, pos, prev, item);
      Settle(chains[pos := chains[pos] + [item]], rows[pos := row + [Entry(key, val)]], items + {item}, m);
    }

    /** hash_map_count; hash_map_lint asserts what it ensures. */
    method Count() returns (n: nat)
      requires Valid()
      ensures n == count
    {
      FlattenOnce(rows, bindings);
      hide Represents, Flatten, Held, Good, Spells, Named;
      n := 0;
      var i := 0;
      assert rows[0..] == rows;
      while i < capacity
        invariant i <= capacity && n + |Flatten(rows[i..])| == count
      {
        FlattenFrom(rows, i);
        var k := CountChain(i);
        n := n + k;
        i := i + 1;
      }
      FlattenFrom(rows, i);
    }

    /** Its inner loop. */
    method CountChain(i: nat) returns (k: nat)
      requires Shaped() && i < capacity
      ensures k == |rows[i]|
    {
      hide Held, Good, Spells, Named;
      RowHead(pool[..], chains, rows, items, i);
      k := 0;
      var item := pool[i];
      while item != null
        invariant k <= |rows[i]| && item == At(chains[i], k)
        decreases |rows[i]| - k
      {
        ItemFacts(pool[..], chains, rows, items, i, k);
        item := item.next;
        k := k + 1;
      }
    }

    /** hash_map_rehash */
    method Rehash()
      requires Valid()
      modifies this, items
      ensures Valid() && fresh(pool) && items == old(items) && bindings == old(bindings)
      ensures capacity == 2 * old(capacity) && count == old(count)
      ensures rows == Spread(old(rows), old(capacity))
    {
      var n := capacity;
      HeldSeparated(pool[..], chains, rows, items, bindings);
      SpreadRepresents(rows, bindings);
      assert n == |rows| > 0;
      hide Held, Represents, Separated, Spread, PowerOfTwo;
      var wide := Widen(pool);
      ghost var more: seq<seq<Item>> := chains + seq(|chains|, _ => []);
      Widened(pool[..], wide[..], chains, rows, items);
      more := SpreadAll(wide, more, rows, items, bindings);
      pool, capacity := wide, 2 * n;
      Settle(more, Spread(rows, n), items, bindings);
      var counted := Count();
      assert counted == count;
    }

    /** hash_map_insert. The density is compared as 5 * count > 4 * capacity: the quotient of
        the two is exact in binary, and no such quotient lies between 0.8 and its double. */
    method Insert(key: Key, val: nat) returns (hash: nat)
      requires Valid()
      modifies this, pool, items
      ensures Valid() && bindings == old(bindings)[key := val] && hash == Hash(key)
      ensures (pool == old(pool) || fresh(pool)) && fresh(items - old(items))
      ensures capacity == if 5 * old(count) > 4 * old(capacity) then 2 * old(capacity) else old(capacity)
    {
      if 5 * count > 4 * capacity {
        Rehash();
      }
      hash := Djb2(key);
      MaskBelow(hash, capacity);
      var pos := Position(hash, capacity);
      LookupAgrees(rows, bindings, key);
      assert Good(pool[pos], chains[pos], rows[pos], items) && pos == Home(key, capacity);
      GoodHead(pool[pos], chains[pos], rows[pos], items);
      hide *;
      var prev, item := Search(pool, pos, hash, key, chains[pos], rows[pos], items);
      AtIs(chains[pos], Index(rows[pos], key));
      if item != null {
        Rebind(pos, item, key, val);
      } else {
        Enrol(pos, prev, hash, key, val);
      }
    }
  }

  lemma FlattenFrom(rows: seq<seq<Entry>>, i: nat)
    requires i <= |rows|
    ensures Flatten(rows[i..]) == if i < |rows| then rows[i] + Flatten(rows[i + 1..]) else []
  {
  }

  lemma RowHead(pool: seq<Item?>, chains: seq<seq<Item>>, rows: seq<seq<Entry>>, items: set<object>, b: nat)
    requires Held(pool, chains, rows, items) && b < |rows|
    ensures |rows| == |chains| == |pool| && |rows[b]| == |chains[b]| && pool[b] == At(chains[b], 0)
  {
    assert Good(pool[b], chains[b], rows[b], items);
  }

  /** What follows from entry k of the row before pos; pos 0 is before all of them. */
  function Rest(rows: seq<seq<Entry>>, pos: nat, k: nat): seq<Entry>
    requires pos <= |rows| && (pos > 0 ==> k <= |rows[pos - 1]|)
  {
    if pos == 0 then Flatten(rows) else rows[pos - 1][k..] + Flatten(rows[pos..])
  }

  lemma RestNext(rows: seq<seq<Entry>>, pos: nat, k: nat)
    requires 0 < pos <= |rows| && k < |rows[pos - 1]|
    ensures Rest(rows, pos, k) == [rows[pos - 1][k]] + Rest(rows, pos, k + 1)
  {
    hide Flatten;
  }

  /** At the end of a row, what follows is the next row from its start. */
  lemma RestOver(rows: seq<seq<Entry>>, pos: nat, k: nat)
    requires pos < |rows| && (pos > 0 ==> k == |rows[pos - 1]|)
    ensures Rest(rows, pos, k) == Rest(rows, pos + 1, 0)
  {
    FlattenFrom(rows, pos);
    hide Flatten;
    assert rows[0..] == rows && rows[pos][0..] == rows[pos];
  }

  lemma RestEnds(rows: seq<seq<Entry>>, pos: nat, k: nat)
    requires pos == |rows| && (pos > 0 ==> k == |rows[pos - 1]|)
    ensures Rest(rows, pos, k) == []
  {
  }

  /** The item is the k-th of the chain before pos, and rest is what follows from there. */
  ghost predicate Points(rows: seq<seq<Entry>>, chains: seq<seq<Item>>, pos: nat, item: Item?, k: nat,
      rest: seq<Entry>) {
    && pos <= |rows| == |chains|
    && (pos == 0 ==> item == null)
    && (pos > 0 ==> k <= |rows[pos - 1]| == |chains[pos - 1]| && item == At(chains[pos - 1], k))
    && rest == Rest(rows, pos, k)
  }

  lemma PointsAt(rows: seq<seq<Entry>>, chains: seq<seq<Item>>, pos: nat, cur: Item, k: nat, rest: seq<Entry>)
    requires Points(rows, chains, pos, cur, k, rest)
    ensures 0 < pos <= |rows| == |chains| && k < |rows[pos - 1]| == |chains[pos - 1]| && cur == chains[pos - 1][k]
    ensures rest == Rest(rows, pos, k)
  {
    hide Rest;
  }

  lemma PointsEnd(rows: seq<seq<Entry>>, chains: seq<seq<Item>>, pos: nat, k: nat, rest: seq<Entry>)
    requires Points(rows, chains, pos, null, k, rest)
    ensures pos <= |rows| == |chains| && (pos > 0 ==> k == |rows[pos - 1]|) && rest == Rest(rows, pos, k)
  {
    hide Rest;
  }

  lemma PointsAfter(rows: seq<seq<Entry>>, chains: seq<seq<Item>>, pos: nat, next: Item?, k: nat)
    requires 0 < pos <= |rows| == |chains| && k <= |rows[pos - 1]| == |chains[pos - 1]| && next == At(chains[pos - 1],
        k)
    ensures Points(rows, chains, pos, next, k, Rest(rows, pos, k))
  {
    hide Rest, At;
  }

  /** hash_map_iterator_t: rest is what it has still to give. */
  class Iterator {
    const table: Table
    var pos: nat
    var item: Item?
    ghost var k: nat
    ghost var rest: seq<Entry>

    ghost predicate Valid()
      reads this, table, table.pool, table.items
    {
      this !in table.items && table.Valid() && Points(table.rows, table.chains, pos, item, k, rest)
    }

    /** hash_map_it_init */
    constructor (table: Table)
      requires table.Valid()
      ensures Valid() && this.table == table && rest == Flatten(table.rows)
    {
      this.table, item, pos, k, rest := table, null, 0, 0, Flatten(table.rows);
    }

    /** Row b of the table and its chain. */
    lemma RowFacts(b: nat)
      requires table.Valid() && b < table.pool.Length
      ensures |table.rows| == |table.chains| == table.capacity == table.pool.Length
      ensures |table.rows[b]| == |table.chains[b]| && table.pool[b] == At(table.chains[b], 0)
    {
      assert table.Shaped();
      hide Represents;
      RowHead(table.pool[..], table.chains, table.rows, table.items, b);
    }

    lemma EntryFacts(b: nat, k: nat)
      requires table.Valid() && b < |table.rows| && k < |table.rows[b]|
      ensures |table.chains| == |table.rows| && |table.chains[b]| == |table.rows[b]|
      ensures var x := table.chains[b][k];
        table.rows[b][k] == Entry(x.key, x.val) && x.next == At(table.chains[b], k + 1)
    {
      assert table.Shaped() && b < table.capacity;
      hide Represents;
      RowFacts(b);
      ItemFacts(table.pool[..], table.chains, table.rows, table.items, b, k);
    }

    /** What giving the item at hand leaves. */
    lemma ChainStep(cur: Item)
      requires table.Valid() && Points(table.rows, table.chains, pos, cur, k, rest)
      ensures pos <= |table.rows| && (pos > 0 ==> k + 1 <= |table.rows[pos - 1]|)
      ensures rest == [Entry(cur.key, cur.val)] + Rest(table.rows, pos, k + 1)
      ensures Points(table.rows, table.chains, pos, cur.next, k + 1, Rest(table.rows, pos, k + 1))
    {
      hide *;
      PointsAt(table.rows, table.chains, pos, cur, k, rest);
      EntryFacts(pos - 1, k);
      RestNext(table.rows, pos, k);
      PointsAfter(table.rows, table.chains, pos, cur.next, k + 1);
    }

    /** Behind a chain comes the first item of chain pos, if it has one. */
    lemma PoolStep()
      requires table.Valid() && Points(table.rows, table.chains, pos, null, k, rest) && pos < table.pool.Length
      ensures pos + 1 <= |table.rows| && Points(table.rows, table.chains, pos + 1, table.pool[pos], 0, rest)
    {
      hide *;
      PointsEnd(table.rows, table.chains, pos, k, rest);
      RowFacts(pos);
      RestOver(table.rows, pos, k);
      PointsAfter(table.rows, table.chains, pos + 1, table.pool[pos], 0);
    }

    /** Steps over an empty chain. */
    method Over()
      requires Valid() && item == null && pos < table.pool.Length && table.pool[pos] == null
      modifies this`pos, this`k
      ensures Valid() && pos == old(pos) + 1
    {
      hide Table.Valid, Points;
      PoolStep();
      pos, k := pos + 1, 0;
    }

    /** The next item of the chain at hand. */
    method FromChain(cur: Item)
      requires Valid() && item == cur
      modifies this`item, this`k, this`rest
      ensures Valid() && old(rest) == [Entry(cur.key, cur.val)] + rest
    {
      hide Table.Valid, Points, Rest;
      ChainStep(cur);
      item, k, rest := cur.next, k + 1, Rest(table.rows, pos, k + 1);
    }

    /** The first item of chain pos. */
    method Enter(cur: Item)
      requires Valid() && item == null && pos < table.pool.Length && table.pool[pos] == cur
      modifies this
      ensures Valid() && old(rest) == [Entry(cur.key, cur.val)] + rest
    {
      hide Table.Valid, Points;
      PoolStep();
      item, pos, k := cur, pos + 1, 0;
      FromChain(cur);
    }

    /** The first item of the next chain that has one. */
    method FromPool() returns (cur: Item?)
      requires Valid() && item == null
      modifies this
      ensures Valid() && (cur == null <==> old(rest) == [])
      ensures if cur == null then rest == [] else old(rest) == [Entry(cur.key, cur.val)] + rest
    {
      assert table.Shaped();
      hide *;
      while pos < table.capacity && table.pool[pos] == null
        invariant Valid() && item == null && pos <= table.capacity && rest == old(rest)
      {
        Over();
      }
      if pos >= table.capacity || table.pool[pos] == null {
        NothingLeft();
        return null;
      }
      cur := table.pool[pos];
      Enter(cur);
    }

    lemma NothingLeft()
      requires Valid() && item == null && pos >= table.capacity
      ensures rest == []
    {
      assert table.Shaped();
      RestEnds(table.rows, pos, k);
    }

    /** hash_map_it_next */
    method Next() returns (ok: bool, key: Key, val: nat)
      requires Valid()
      modifies this
      ensures Valid() && ok == (old(rest) != [])
      ensures if ok then old(rest) == [Entry(key, val)] + rest else rest == []
    {
      hide *;
      var cur := item;
      if item != null {
        FromChain(item);
      } else {
        cur := FromPool();
        if cur == null {
          return false, [], 0;
        }
      }
      return true, cur.key, cur.val;
    }
  }

  lemma Joined(seen: seq<Entry>, e: Entry, rest: seq<Entry>)
    ensures seen + ([e] + rest) == (seen + [e]) + rest
  {
  }

  /** HASH_MAP_FOREACH: every binding is met, and none twice. */
  method ForEach(table: Table) returns (seen: seq<Entry>)
    requires table.Valid()
    ensures Unique(seen) && |seen| == |table.bindings|
    ensures forall e: Entry :: e in seen <==> Binds(table.bindings, e)
  {
    FlattenOnce(table.rows, table.bindings);
    seen := [];
    ghost var all := Flatten(table.rows);
    hide *;
    var it := new Iterator(table);
    ghost var left := it.rest;
    var ok, key, val := it.Next();
    while ok
      invariant it.Valid() && fresh(it) && seen + left == all
      invariant if ok then left == [Entry(key, val)] + it.rest else left == []
      decreases |left|
    {
      Joined(seen, Entry(key, val), it.rest);
      seen := seen + [Entry(key, val)];
      left := it.rest;
      ok, key, val := it.Next();
    }
    assert seen + left == seen;
  }
}
