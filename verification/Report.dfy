/** Report rows: one row per tracked peer, in the order in which the peers were first heard.
    The registries keep their peers in an unordered map, collect rows in whatever order the map
    yields them, and sort the rows by peer number; the result is the same list every time. */
module Report {
  import opened Sorting
  import opened Wire

  ghost predicate Distinct<T>(xs: seq<T>) {
    forall i, j :: 0 <= i < j < |xs| ==> xs[i] != xs[j]
  }

  /** The rows of the peers in `order`, skipping the peers that have none. */
  function Rows<R>(order: seq<Gid>, rows: map<Gid, R>): seq<R> {
    if order == [] then []
    else
      var n := |order| - 1;
      Rows(order[..n], rows) + if order[n] in rows then [rows[order[n]]] else []
  }

  lemma {:induction false} NoRows<R>(order: seq<Gid>)
    ensures Rows<R>(order, map[]) == []
  {
    if order != [] {
      NoRows<R>(order[..|order| - 1]);
    }
  }

  lemma {:induction false} RowsIgnoreOthers<R>(order: seq<Gid>, rows: map<Gid, R>, g: Gid, r: R)
    requires g !in order
    ensures Rows(order, rows[g := r]) == Rows(order, rows)
  {
    if order != [] {
      assert forall h :: h in order[..|order| - 1] ==> h in order;
      RowsIgnoreOthers(order[..|order| - 1], rows, g, r);
      assert order[|order| - 1] in order;
    }
  }

  lemma {:induction false} RowsAdd<R>(order: seq<Gid>, rows: map<Gid, R>, g: Gid, r: R)
    requires Distinct(order) && g in order && g !in rows
    ensures multiset(Rows(order, rows[g := r])) == multiset(Rows(order, rows)) + multiset{r}
  {
    var n := |order| - 1;
    if order[n] == g {
      RowsIgnoreOthers(order[..n], rows, g, r);
    } else {
      assert g in order[..n];
      RowsAdd(order[..n], rows, g, r);
    }
  }

  /** A list holding the rows of a map, each once, in any order. */
  ghost predicate Collects<R(!new)>(out: seq<R>, rows: map<Gid, R>) {
    forall order {:trigger Rows(order, rows)} ::
      Distinct(order) && (forall g :: g in rows ==> g in order) ==> multiset(out) == multiset(Rows(order, rows))
  }

  lemma CollectNone<R(!new)>()
    ensures Collects<R>([], map[])
  {
    forall order | Distinct(order) ensures Rows<R>(order, map[]) == [] {
      NoRows<R>(order);
    }
  }

  lemma CollectOne<R(!new)>(out: seq<R>, rows: map<Gid, R>, g: Gid, r: R)
    requires Collects(out, rows) && g !in rows
    ensures Collects(out + [r], rows[g := r])
  {
    forall order | Distinct(order) && (forall h :: h in rows[g := r] ==> h in order)
      ensures multiset(out + [r]) == multiset(Rows(order, rows[g := r]))
    {
      assert g in rows[g := r];
      assert forall h :: h in rows ==> h in rows[g := r];
      assert multiset(out) == multiset(Rows(order, rows));
      RowsAdd(order, rows, g, r);
    }
  }

  /** When the i-th peer's row is numbered i+1, the rows come out numbered in ascending order. */
  lemma {:induction false} RowsAscending<R>(order: seq<Gid>, rows: map<Gid, R>, id: R -> int)
    requires forall i :: 0 <= i < |order| && order[i] in rows ==> id(rows[order[i]]) == i + 1
    ensures StrictlyAscending(Rows(order, rows), id)
    ensures forall r :: r in Rows(order, rows) ==> id(r) <= |order|
  {
    if order != [] {
      var n := |order| - 1;
      RowsAscending(order[..n], rows, id);
      var before := Rows(order[..n], rows);
      assert forall i :: 0 <= i < |before| ==> before[i] in before;
    }
  }

  /** Collecting the rows in any order and sorting them by number yields Rows. */
  lemma SortedRows<R(!new)>(order: seq<Gid>, rows: map<Gid, R>, collected: seq<R>, id: R -> int)
    requires forall i :: 0 <= i < |order| && order[i] in rows ==> id(rows[order[i]]) == i + 1
    requires Distinct(order) && (forall g :: g in rows ==> g in order) && Collects(collected, rows)
    ensures SortBy(collected, id) == Rows(order, rows)
  {
    RowsAscending(order, rows, id);
    StrictOrderIsUnique(Rows(order, rows), SortBy(collected, id), id);
  }

  /** When every peer has a row, the i-th row is the i-th peer's. */
  lemma {:induction false} FullRows<R>(order: seq<Gid>, rows: map<Gid, R>)
    requires forall i :: 0 <= i < |order| ==> order[i] in rows
    ensures |Rows(order, rows)| == |order|
    ensures forall i :: 0 <= i < |order| ==> Rows(order, rows)[i] == rows[order[i]]
  {
    if order != [] {
      FullRows(order[..|order| - 1], rows);
    }
  }

  /** The rows are those of the listed peers that have one. */
  lemma {:induction false} RowsHold<R>(order: seq<Gid>, rows: map<Gid, R>)
    ensures forall r :: r in Rows(order, rows) ==> exists g :: g in order && g in rows && rows[g] == r
    ensures forall g :: g in order && g in rows ==> rows[g] in Rows(order, rows)
  {
    if order != [] {
      var n := |order| - 1;
      RowsHold(order[..n], rows);
      assert order == order[..n] + [order[n]];
      forall r | r in Rows(order, rows) ensures exists g :: g in order && g in rows && rows[g] == r {
        if r in Rows(order[..n], rows) {
          var g :| g in order[..n] && g in rows && rows[g] == r;
          assert g in order;
        } else {
          assert order[n] in order && rows[order[n]] == r;
        }
      }
    }
  }
}
