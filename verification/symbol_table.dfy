/** The symbol table the model takes from its sibling `utils` module, whose
    source is not part of this model. Its behaviour here is an ASSUMPTION drawn
    from how the model uses it: ids 0 and 1 are reserved (padding, unknown),
    `get` hands out the next free id on a miss, `lookup` answers 1 on a miss,
    `s` is the next free id and so the number of embedding rows. */
module SymbolTable {
  import opened Wrappers

  /** The id reserved for padding. */
  const PaddingSymbol: nat := 0
  /** `unknown_symbol`, the id `lookup` answers for a token it does not hold. */
  const UnknownSymbol: nat := 1
  /** The first id `get` hands out. */
  const StartingSymbol: nat := 2

  /** `d` maps tokens to ids; `s` is the next id `get` will hand out. */
  datatype Table = Table(d: map<string, nat>, s: nat)

  /** Ids are dense from 2 and below `s`, and there are as many ids as tokens,
      so no two tokens share one (`IdsDistinct`). */
  ghost predicate Valid(t: Table) {
    && t.s == StartingSymbol + |t.d|
    && (forall w :: w in t.d ==> StartingSymbol <= t.d[w] < t.s)
    && |t.d.Values| == |t.d|
  }

  /** A subset is no larger. */
  lemma SubsetCard(a: set<nat>, b: set<nat>)
    requires a <= b
    ensures |a| <= |b|
  {
    assert b == a + (b - a);
  }

  /** The values after inserting a fresh key. */
  lemma ValuesAfterInsert(d: map<string, nat>, w: string, x: nat)
    requires w !in d
    ensures d[w := x].Values == d.Values + {x}
  {
    var d' := d[w := x];
    forall y | y in d'.Values ensures y in d.Values + {x} {
      var k :| k in d' && d'[k] == y;
      if k != w { assert d[k] == y; }
    }
    forall y | y in d.Values ensures y in d'.Values {
      var k :| k in d && d[k] == y;
      assert d'[k] == y;
    }
    assert d'[w] == x;
  }

  /** Two keys sharing a value leave the map with fewer values than keys. */
  lemma SharedValueLosesOne(d: map<string, nat>, w: string, v: string)
    requires w in d && v in d && w != v && d[w] == d[v]
    ensures |d.Values| < |d|
  {
    var m := d - {v};
    forall x | x in d.Values ensures x in m.Values {
      var u :| u in d && d[u] == x;
      if u == v { assert m[w] == x; } else { assert m[u] == x; }
    }
    SubsetCard(d.Values, m.Values);
    assert |m| == |d| - 1;
  }

  /** In a valid table no two tokens share an id. */
  lemma IdsDistinct(t: Table, w: string, v: string)
    requires Valid(t) && w in t.d && v in t.d && w != v
    ensures t.d[w] != t.d[v]
  {
    if t.d[w] == t.d[v] {
      SharedValueLosesOne(t.d, w, v);
    }
  }

  /** `t2` holds every entry of `t1` under the same id. */
  ghost predicate Grows(t1: Table, t2: Table) {
    forall v :: v in t1.d ==> v in t2.d && t2.d[v] == t1.d[v]
  }

  /** `SymbolTable()`. */
  function Empty(): (t: Table)
    ensures Valid(t) && t.s == StartingSymbol && |t.d| == 0
  {
    Table(map[], StartingSymbol)
  }

  /** `get(w)`: insert-or-return; the only operation that grows the table. */
  function Get(t: Table, w: string): (r: (Table, nat))
    requires Valid(t)
    ensures Valid(r.0)
    ensures w in r.0.d && r.1 == r.0.d[w]
    ensures r.0.d.Keys == t.d.Keys + {w}
    ensures Grows(t, r.0)
    ensures w in t.d ==> r.0 == t
    ensures w !in t.d ==> r.1 == t.s && r.0.s == t.s + 1
  {
    if w in t.d then (t, t.d[w])
    else
      var d' := t.d[w := t.s];
      assert d'.Keys == t.d.Keys + {w};
      ValuesAfterInsert(t.d, w, t.s);
      forall y | y in t.d.Values ensures y < t.s {
        var k :| k in t.d && t.d[k] == y;
      }
      (Table(d', t.s + 1), t.s)
  }

  /** `lookup(w)`: the id of `w`, or `UnknownSymbol` when the table lacks it. */
  function Lookup(t: Table, w: string): (r: nat)
    requires Valid(t)
    ensures r == UnknownSymbol <==> w !in t.d
    ensures w in t.d ==> r == t.d[w]
    ensures r < t.s
  {
    if w in t.d then t.d[w] else UnknownSymbol
  }

  /** `lookup_strict(w)`: the id of `w`, with no fallback. */
  function LookupStrict(t: Table, w: string): (r: Option<nat>)
    requires Valid(t)
    ensures r.Some? <==> w in t.d
    ensures r.Some? ==> StartingSymbol <= r.value < t.s
  {
    if w in t.d then Some(t.d[w]) else None
  }

  /** Python 2's eager `map(t.get, ws)`: `get` on each token in order, keeping the ids. */
  function GetAll(t: Table, ws: seq<string>): (r: (Table, seq<nat>))
    requires Valid(t)
    ensures Valid(r.0)
    ensures forall w :: w in r.0.d <==> w in t.d || w in ws
    ensures Grows(t, r.0)
    ensures |r.1| == |ws|
    ensures forall i :: 0 <= i < |ws| ==> r.1[i] == r.0.d[ws[i]]
    decreases |ws|
  {
    if |ws| == 0 then (t, [])
    else
      var (t1, id) := Get(t, ws[0]);
      var (t2, ids) := GetAll(t1, ws[1..]);
      (t2, [id] + ids)
  }

  /** `map(t.lookup, ws)`. */
  function LookupAll(t: Table, ws: seq<string>): (r: seq<nat>)
    requires Valid(t)
    ensures |r| == |ws|
    ensures forall i :: 0 <= i < |ws| ==> (r[i] == UnknownSymbol <==> ws[i] !in t.d)
    ensures forall i :: 0 <= i < |ws| && ws[i] in t.d ==> r[i] == t.d[ws[i]]
  {
    seq(|ws|, i requires 0 <= i < |ws| => Lookup(t, ws[i]))
  }

  /** A second `get` of the same token returns the same id and leaves the table as it is. */
  lemma GetIdempotent(t: Table, w: string)
    requires Valid(t)
    ensures Get(Get(t, w).0, w) == Get(t, w)
  {
  }

  /** A token inserted by `get` is found by `lookup` and `lookup_strict` under the same id. */
  lemma LookupAfterGet(t: Table, w: string)
    requires Valid(t)
    ensures Lookup(Get(t, w).0, w) == Get(t, w).1
    ensures LookupStrict(Get(t, w).0, w) == Some(Get(t, w).1)
  {
  }

  /** Mapping a concatenation with `get` builds the same table as mapping the parts one after the other. */
  lemma {:induction false} GetAllAppend(t: Table, a: seq<string>, b: seq<string>)
    requires Valid(t)
    ensures GetAll(t, a + b).0 == GetAll(GetAll(t, a).0, b).0
    decreases |a|
  {
    if |a| == 0 {
      assert a + b == b;
    } else {
      assert (a + b)[0] == a[0] && (a + b)[1..] == a[1..] + b;
      GetAllAppend(Get(t, a[0]).0, a[1..], b);
    }
  }

  /** `get` on tokens the table already holds changes nothing and answers what `lookup` would. */
  lemma {:induction false} GetAllKnown(t: Table, ws: seq<string>)
    requires Valid(t)
    requires forall i :: 0 <= i < |ws| ==> ws[i] in t.d
    ensures GetAll(t, ws) == (t, LookupAll(t, ws))
    decreases |ws|
  {
    if |ws| > 0 {
      GetAllKnown(t, ws[1..]);
      assert LookupAll(t, ws) == [Lookup(t, ws[0])] + LookupAll(t, ws[1..]);
    }
  }
}
