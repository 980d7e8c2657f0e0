/**
 * `sort_values(by=['Universidade', 'Ano'])`: a stable sort of the rows by
 * university name (code-point order), then year. The sort is written as
 * insertion sort; what the rest of the model uses is what is proved about
 * it: the result is ordered, is a permutation of the input, and keeps rows
 * with equal keys in their input order.
 */
module Ordering {
  import opened Wrappers
  import opened Strings
  import opened Table

  /** `x` comes no later than `y` in (Universidade, Ano) order. */
  predicate KeyLe(x: Row, y: Row) {
    if x.uni == y.uni then x.ano <= y.ano else StrLe(x.uni, y.uni)
  }

  predicate HasKey(x: Row, uni: string, ano: int) {
    x.uni == uni && x.ano == ano
  }

  lemma KeyLeTotal(x: Row, y: Row)
    ensures KeyLe(x, y) || KeyLe(y, x)
  {
    StrLeTotal(x.uni, y.uni);
  }

  lemma KeyLeTransitive(x: Row, y: Row, z: Row)
    requires KeyLe(x, y) && KeyLe(y, z)
    ensures KeyLe(x, z)
  {
    if x.uni != y.uni && y.uni != z.uni {
      StrLeTransitive(x.uni, y.uni, z.uni);
      if x.uni == z.uni {
        StrLeAntisymmetric(x.uni, y.uni);
      }
    }
  }

  /** Two rows ordered both ways have the same key. */
  lemma KeyLeAntisymmetric(x: Row, y: Row)
    requires KeyLe(x, y) && KeyLe(y, x)
    ensures HasKey(y, x.uni, x.ano)
  {
    if x.uni != y.uni {
      StrLeAntisymmetric(x.uni, y.uni);
    }
  }

  predicate Sorted(s: seq<Row>) {
    forall i, j :: 0 <= i < j < |s| ==> KeyLe(s[i], s[j])
  }

  /** Places `x` before the first row whose key is not smaller than its own. */
  function Insert(x: Row, s: seq<Row>): (r: seq<Row>)
    ensures |r| == |s| + 1
  {
    if s == [] || KeyLe(x, s[0]) then [x] + s else [s[0]] + Insert(x, s[1..])
  }

  function SortRows(s: seq<Row>): (r: seq<Row>)
    ensures |r| == |s|
  {
    if s == [] then [] else Insert(s[0], SortRows(s[1..]))
  }

  lemma {:induction false} InsertPermutes(x: Row, s: seq<Row>)
    ensures multiset(Insert(x, s)) == multiset(s) + multiset{x}
  {
    if s != [] && !KeyLe(x, s[0]) {
      InsertPermutes(x, s[1..]);
      assert s == [s[0]] + s[1..];
    }
  }

  lemma {:induction false} InsertSorted(x: Row, s: seq<Row>)
    requires Sorted(s)
    ensures Sorted(Insert(x, s))
  {
    if s == [] {
    } else if KeyLe(x, s[0]) {
      forall j | 0 < j < |s| ensures KeyLe(x, s[j]) {
        KeyLeTransitive(x, s[0], s[j]);
      }
    } else {
      KeyLeTotal(x, s[0]);
      var t := Insert(x, s[1..]);
      InsertSorted(x, s[1..]);
      InsertPermutes(x, s[1..]);
      forall i | 0 <= i < |t| ensures KeyLe(s[0], t[i]) {
        assert t[i] in multiset(t);
        if t[i] != x {
          assert t[i] in multiset(s[1..]);
          var j :| 0 <= j < |s[1..]| && s[1..][j] == t[i];
          assert s[1 + j] == t[i];
        }
      }
    }
  }

  /** The sorted rows are in (Universidade, Ano) order. */
  lemma {:induction false} SortRowsSorted(s: seq<Row>)
    ensures Sorted(SortRows(s))
  {
    if s != [] {
      SortRowsSorted(s[1..]);
      InsertSorted(s[0], SortRows(s[1..]));
    }
  }

  /** Sorting neither drops nor duplicates nor alters a row. */
  lemma {:induction false} SortRowsPermutes(s: seq<Row>)
    ensures multiset(SortRows(s)) == multiset(s)
  {
    if s != [] {
      SortRowsPermutes(s[1..]);
      InsertPermutes(s[0], SortRows(s[1..]));
      assert s == [s[0]] + s[1..];
    }
  }

  /** The rows of `s` with key (uni, ano), in order. */
  function WithKey(s: seq<Row>, uni: string, ano: int): seq<Row> {
    if s == [] then []
    else (if HasKey(s[0], uni, ano) then [s[0]] else []) + WithKey(s[1..], uni, ano)
  }

  lemma {:induction false} InsertStable(x: Row, s: seq<Row>, uni: string, ano: int)
    ensures WithKey(Insert(x, s), uni, ano) == (if HasKey(x, uni, ano) then [x] else []) + WithKey(s, uni, ano)
  {
    if s == [] || KeyLe(x, s[0]) {
      assert ([x] + s)[1..] == s;
    } else {
      var rest := Insert(x, s[1..]);
      var head := if HasKey(s[0], uni, ano) then [s[0]] else [];
      var own := if HasKey(x, uni, ano) then [x] else [];
      InsertStable(x, s[1..], uni, ano);
      assert ([s[0]] + rest)[1..] == rest;
      assert WithKey(Insert(x, s), uni, ano) == head + WithKey(rest, uni, ano);
      assert WithKey(s, uni, ano) == head + WithKey(s[1..], uni, ano);
      if HasKey(x, uni, ano) {
        assert !HasKey(s[0], x.uni, x.ano);
        assert head == [];
      }
      assert head + (own + WithKey(s[1..], uni, ano)) == own + (head + WithKey(s[1..], uni, ano));
    }
  }

  /** Rows with equal keys keep their input order (the sort is stable). */
  lemma {:induction false} SortRowsStable(s: seq<Row>, uni: string, ano: int)
    ensures WithKey(SortRows(s), uni, ano) == WithKey(s, uni, ano)
  {
    if s != [] {
      SortRowsStable(s[1..], uni, ano);
      InsertStable(s[0], SortRows(s[1..]), uni, ano);
    }
  }

  /** In a sorted panel each university's rows form one contiguous block. */
  lemma GroupsContiguous(s: seq<Row>, i: int, j: int, k: int)
    requires Sorted(s)
    requires 0 <= i < j < k < |s| && s[i].uni == s[k].uni
    ensures s[j].uni == s[i].uni
  {
    if s[j].uni != s[i].uni {
      assert StrLe(s[i].uni, s[j].uni) && StrLe(s[j].uni, s[k].uni);
      StrLeAntisymmetric(s[i].uni, s[j].uni);
    }
  }

  /** The fields a row is sorted by and carries unchanged through the IGC repair. */
  function Base(x: Row): (string, int, Option<real>) {
    (x.uni, x.ano, x.orcamento)
  }

  function BaseOf(s: seq<Row>): (r: seq<(string, int, Option<real>)>)
    ensures |r| == |s|
  {
    seq(|s|, k requires 0 <= k < |s| => Base(s[k]))
  }

  lemma BaseOfCons(y: Row, t: seq<Row>)
    ensures BaseOf([y] + t) == [Base(y)] + BaseOf(t)
  {
  }

  lemma {:induction false} InsertPermutesBase(x: Row, s: seq<Row>)
    ensures multiset(BaseOf(Insert(x, s))) == multiset(BaseOf(s)) + multiset{Base(x)}
  {
    if s == [] || KeyLe(x, s[0]) {
      BaseOfCons(x, s);
    } else {
      InsertPermutesBase(x, s[1..]);
      BaseOfCons(s[0], Insert(x, s[1..]));
      BaseOfCons(s[0], s[1..]);
      assert s == [s[0]] + s[1..];
    }
  }

  /** Sorting keeps the multiset of (Universidade, Ano, Orcamento) triples. */
  lemma {:induction false} SortRowsPermutesBase(s: seq<Row>)
    ensures multiset(BaseOf(SortRows(s))) == multiset(BaseOf(s))
  {
    if s != [] {
      SortRowsPermutesBase(s[1..]);
      InsertPermutesBase(s[0], SortRows(s[1..]));
      BaseOfCons(s[0], s[1..]);
      assert s == [s[0]] + s[1..];
    }
  }

  /** Order depends on the keys alone: rows with the same keys, position by position, are sorted alike. */
  lemma SortedByKeys(a: seq<Row>, b: seq<Row>)
    requires Sorted(a) && |a| == |b|
    requires forall k :: 0 <= k < |a| ==> a[k].uni == b[k].uni && a[k].ano == b[k].ano
    ensures Sorted(b)
  {
    forall i, j | 0 <= i < j < |b| ensures KeyLe(b[i], b[j]) {
      assert KeyLe(a[i], a[j]);
    }
  }
}
