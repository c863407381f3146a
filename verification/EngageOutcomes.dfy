/** The append-only table of engagement facts: recording is an insert arbitrated by a partial unique
    index, and the whole table is a function of the calls made. */
module EngageOutcomes {
  import opened Prelude

  datatype Counts = Counts(likes: Option<int>, retweets: Option<int>, quotes: Option<int>, replies: Option<int>)

  datatype Call = Call(
    draftId: int, siteId: Option<string>, kind: string, commentId: Option<string>, ref: Option<string>,
    counts: Counts, strategy: Option<string>, observedAt: Option<int>)

  /** A stored row holds the same columns. */
  type Row = Call

  predicate KnownKind(kind: string) {
    kind == "reply_received" || kind == "metrics_snapshot" || kind == "attributed_visit"
  }

  /** Cumulative counters are latest-wins; discrete events are never overwritten. */
  predicate Upserts(kind: string) {
    kind == "metrics_snapshot"
  }

  /** Both fall under the partial unique index and collide there. */
  predicate Collide(a: Row, b: Row) {
    a.draftId == b.draftId && a.kind == b.kind && a.ref == b.ref && a.ref.Some?
  }

  ghost predicate Indexed(rows: seq<Row>) {
    forall i, j :: 0 <= i < j < |rows| ==> !Collide(rows[i], rows[j])
  }

  /** `ON CONFLICT DO UPDATE SET`: the counters and the observation time, nothing else. */
  function Refreshed(row: Row, c: Call): Row {
    row.(counts := c.counts, observedAt := c.observedAt)
  }

  datatype Reply = Raised | Wrote(changed: bool)

  class OutcomeTable {
    var rows: seq<Row>
    ghost var history: seq<Call>     // every call that did not raise

    ghost predicate Valid()
      reads this
    {
      Indexed(rows) && rows == Table(history)
    }

    constructor ()
      ensures Valid() && rows == [] && history == []
    {
      rows, history := [], [];
    }

    /** `record_outcome`: the table stays what `Table` makes of the calls so far, and the answer is
        True exactly when a row was inserted or updated. */
    method RecordOutcome(c: Call) returns (reply: Reply)
      requires Valid()
      modifies this
      ensures Valid()
      ensures reply.Raised? <==> c.kind !in {"reply_received", "metrics_snapshot", "attributed_visit"}
      ensures reply.Raised? ==> rows == old(rows) && history == old(history)
      ensures reply.Wrote? ==> history == old(history) + [c]
      ensures reply.Wrote? ==> (reply.changed <==> c.kind == "metrics_snapshot" || FirstOfKey(old(history), c))
      ensures reply.Wrote? && FirstOfKey(old(history), c) ==> rows == old(rows) + [c]
      ensures reply.Wrote? ==> |rows| == |old(rows)| + if FirstOfKey(old(history), c) then 1 else 0
      ensures reply.Wrote? && !reply.changed ==> rows == old(rows)
    {
      if !KnownKind(c.kind) {
        return Raised;
      }
      TableGrows(history, c);
      var k := 0;
      while k < |rows| && !Collide(rows[k], c)
        invariant 0 <= k <= |rows|
        invariant forall i :: 0 <= i < k ==> !Collide(rows[i], c)
      {
        k := k + 1;
      }
      TableCollides(history, c);
      if k == |rows| {
        rows := rows + [c];
        history := history + [c];
        return Wrote(true);
      }
      ConflictIsUnique(rows, k, c);
      history := history + [c];
      if Upserts(c.kind) {
        rows := rows[k := Refreshed(rows[k], c)];
        return Wrote(true);
      }
      return Wrote(false);
    }
  }

  /** No earlier call has the same draft, kind and reference; without a reference every call is the
      first. */
  ghost predicate FirstOfKey(history: seq<Call>, c: Call) {
    forall i :: 0 <= i < |history| ==> !SameKey(history[i], c)
  }

  predicate SameKey(a: Row, b: Row) {
    a.ref.Some? && (a.draftId, a.kind, a.ref) == (b.draftId, b.kind, b.ref)
  }

  /* ---------- The table as a function of the history ---------- */

  /** No earlier call has this call's place in the index: it opens a row. */
  ghost predicate IsNew(history: seq<Call>, c: Call) {
    forall i :: 0 <= i < |history| ==> !Collide(history[i], c)
  }

  /** The last call that collides with `c`, or `c` itself when there is none. */
  function LastLike(history: seq<Call>, c: Call): Call {
    if history == [] then c
    else if Collide(history[|history|-1], c) then history[|history|-1]
    else LastLike(history[..|history|-1], c)
  }

  /** The row that the call opening it left behind: its own columns, but for a cumulative kind the
      counters and observation time of the last call for the same key. */
  function RowOf(history: seq<Call>, opener: Call): Row {
    if Upserts(opener.kind) then Refreshed(opener, LastLike(history, opener)) else opener
  }

  /** The calls that open a row, in order. */
  function Openers(history: seq<Call>): seq<Call> {
    if history == [] then []
    else
      var before, c := history[..|history|-1], history[|history|-1];
      if exists i :: 0 <= i < |before| && Collide(before[i], c) then Openers(before) else Openers(before) + [c]
  }

  /** The table: one row per opening call, as `RowOf` describes it. */
  function Table(history: seq<Call>): seq<Row> {
    seq(|Openers(history)|, i requires 0 <= i < |Openers(history)| => RowOf(history, Openers(history)[i]))
  }

  /** Openers are calls of the history, pairwise apart in the index. */
  lemma {:induction false} OpenersAre(history: seq<Call>)
    ensures forall k :: 0 <= k < |Openers(history)| ==> Openers(history)[k] in history
    ensures Indexed(Openers(history))
  {
    if history != [] {
      var before, c := history[..|history|-1], history[|history|-1];
      OpenersAre(before);
      assert history == before + [c];
      if forall i :: 0 <= i < |before| ==> !Collide(before[i], c) {
        forall k | 0 <= k < |Openers(before)| ensures !Collide(Openers(before)[k], c) {
          assert Openers(before)[k] in before;
        }
      }
    }
  }

  /** Every call with a reference has an opener in its place, which is the first such call. */
  lemma {:induction false} OpenerOf(history: seq<Call>, i: nat) returns (k: nat, f: nat)
    requires i < |history| && history[i].ref.Some?
    ensures k < |Openers(history)| && f <= i && Openers(history)[k] == history[f] && Collide(history[f], history[i])
    ensures forall j :: 0 <= j < f ==> !Collide(history[j], history[i])
  {
    var last := |history| - 1;
    var before, c := history[..last], history[last];
    if i < last {
      k, f := OpenerOf(before, i);
    } else if exists j :: 0 <= j < last && Collide(before[j], c) {
      var j :| 0 <= j < last && Collide(before[j], c);
      k, f := OpenerOf(before, j);
    } else {
      k, f := |Openers(before)|, i;
      forall j | 0 <= j < i ensures !Collide(history[j], c) {
        assert history[j] == before[j];
      }
    }
  }

  /** One more call leaves every row alone but the one it collides with. */
  lemma RowOfGrows(history: seq<Call>, c: Call, opener: Call)
    ensures RowOf(history + [c], opener) ==
            if Collide(c, opener) && Upserts(c.kind) then Refreshed(RowOf(history, opener), c)
            else RowOf(history, opener)
  {
    assert (history + [c])[..|history|] == history;
  }

  lemma LastLikeItself(history: seq<Call>, c: Call)
    requires IsNew(history, c)
    ensures LastLike(history, c) == c
  {
    if history != [] {
      assert !Collide(history[|history|-1], c);
      LastLikeItself(history[..|history|-1], c);
    }
  }

  lemma TableGrows(history: seq<Call>, c: Call)
    ensures IsNew(history, c) ==> Table(history + [c]) == Table(history) + [c]
    ensures !IsNew(history, c) ==> |Table(history + [c])| == |Table(history)|
    ensures forall k :: 0 <= k < |Table(history)| ==>
              Table(history + [c])[k] ==
              if Collide(Table(history)[k], c) && Upserts(c.kind) then Refreshed(Table(history)[k], c)
              else Table(history)[k]
  {
    assert (history + [c])[..|history|] == history;
    var os := Openers(history);
    OpenersAre(history);
    forall k | 0 <= k < |os|
      ensures Openers(history + [c])[k] == os[k]
      ensures Table(history + [c])[k] ==
              if Collide(Table(history)[k], c) && Upserts(c.kind) then Refreshed(Table(history)[k], c)
              else Table(history)[k]
    {
      RowOfGrows(history, c, os[k]);
    }
    if IsNew(history, c) {
      LastLikeItself(history, c);
      forall k | 0 <= k < |os| ensures !Collide(os[k], c) {
        assert os[k] in history;
      }
      assert Openers(history + [c]) == os + [c];
      assert RowOf(history + [c], c) == c;
    }
  }

  /** The table has a row in the call's place exactly when the call opens none. */
  lemma TableCollides(history: seq<Call>, c: Call)
    ensures IsNew(history, c) <==> forall k :: 0 <= k < |Table(history)| ==> !Collide(Table(history)[k], c)
  {
    var os := Openers(history);
    OpenersAre(history);
    forall k | 0 <= k < |os| ensures Collide(Table(history)[k], c) == Collide(os[k], c) {
    }
    if !IsNew(history, c) {
      var i :| 0 <= i < |history| && Collide(history[i], c);
      var k, f := OpenerOf(history, i);
      assert Collide(Table(history)[k], c);
    } else {
      forall k | 0 <= k < |os| ensures !Collide(os[k], c) {
        assert os[k] in history;
      }
    }
  }

  lemma ConflictIsUnique(rows: seq<Row>, k: nat, c: Call)
    requires Indexed(rows) && k < |rows| && Collide(rows[k], c)
    ensures forall i :: 0 <= i < |rows| && i != k ==> !Collide(rows[i], c)
    ensures Indexed(rows[k := Refreshed(rows[k], c)])
  {
    forall i | 0 <= i < |rows| && i != k ensures !Collide(rows[i], c) {
      if i < k {
        assert !Collide(rows[i], rows[k]);
      } else {
        assert !Collide(rows[k], rows[i]);
      }
    }
  }

  /* ---------- What the table says about the calls ---------- */

  lemma {:induction false} LastLikeIsLast(history: seq<Call>, c: Call, l: nat)
    requires l < |history| && Collide(history[l], c)
    requires forall j :: l < j < |history| ==> !Collide(history[j], c)
    ensures LastLike(history, c) == history[l]
  {
    if l < |history| - 1 {
      assert !Collide(history[|history|-1], c);
      LastLikeIsLast(history[..|history|-1], c, l);
    }
  }

  /** The row of a referenced fact. With `f` and `l` the first and last call for its key, there is
      exactly one row in its place, and it is the first call's: kept as it is for a discrete event,
      and for a metrics snapshot with the counters and observation time of the last call. */
  lemma RowOfKey(history: seq<Call>, f: nat, l: nat) returns (k: nat)
    requires f <= l < |history| && history[f].ref.Some? && SameKey(history[f], history[l])
    requires forall j :: 0 <= j < f ==> !SameKey(history[j], history[f])
    requires forall j :: l < j < |history| ==> !SameKey(history[j], history[f])
    ensures k < |Table(history)|
    ensures Table(history)[k] == if history[f].kind == "metrics_snapshot"
                                 then history[f].(counts := history[l].counts, observedAt := history[l].observedAt)
                                 else history[f]
    ensures forall i :: 0 <= i < |Table(history)| && i != k ==> !SameKey(Table(history)[i], history[f])
  {
    forall j | 0 <= j < |history| ensures SameKey(history[j], history[f]) == Collide(history[j], history[f]) {
    }
    var g;
    k, g := OpenerOf(history, f);
    assert g == f;
    LastLikeIsLast(history, history[f], l);
    OpenersAre(history);
    var os := Openers(history);
    forall i | 0 <= i < |os| && i != k ensures !SameKey(Table(history)[i], history[f]) {
      if i < k {
        assert !Collide(os[i], os[k]);
      } else {
        assert !Collide(os[k], os[i]);
      }
    }
  }

  /** Two referenced facts share a row exactly when draft, kind and reference are all the same. */
  lemma KeysKeepApart(history: seq<Call>, i: nat, j: nat) returns (a: nat, b: nat)
    requires i < |history| && j < |history| && history[i].ref.Some? && history[j].ref.Some?
    ensures a < |Table(history)| && SameKey(Table(history)[a], history[i])
    ensures b < |Table(history)| && SameKey(Table(history)[b], history[j])
    ensures a == b <==>
            history[i].draftId == history[j].draftId && history[i].kind == history[j].kind
            && history[i].ref == history[j].ref
  {
    var f, g;
    a, f := OpenerOf(history, i);
    b, g := OpenerOf(history, j);
    OpenersAre(history);
    var os := Openers(history);
    assert Table(history)[a].ref == os[a].ref && Table(history)[b].ref == os[b].ref;
    if a < b {
      assert !Collide(os[a], os[b]);
    } else if b < a {
      assert !Collide(os[b], os[a]);
    }
  }

  /** The facts without a reference, in order. */
  function Unreferenced(rows: seq<Row>): seq<Row> {
    if rows == [] then []
    else
      var rest := Unreferenced(rows[..|rows|-1]);
      if rows[|rows|-1].ref.None? then rest + [rows[|rows|-1]] else rest
  }

  lemma {:induction false} SameUnreferenced(a: seq<Row>, b: seq<Row>)
    requires |a| == |b|
    requires forall i :: 0 <= i < |a| ==> a[i].ref == b[i].ref && (a[i].ref.None? ==> a[i] == b[i])
    ensures Unreferenced(a) == Unreferenced(b)
  {
    if a != [] {
      SameUnreferenced(a[..|a|-1], b[..|b|-1]);
    }
  }

  /** No fact without a reference is lost, merged or rewritten: the table's are the calls', in order. */
  lemma {:induction false} UnreferencedFactsAreKept(history: seq<Call>)
    ensures Unreferenced(Table(history)) == Unreferenced(history)
  {
    if history == [] {
      assert Table(history) == [];
    } else {
      var before, c := history[..|history|-1], history[|history|-1];
      UnreferencedFactsAreKept(before);
      assert history == before + [c];
      TableGrows(before, c);
      if IsNew(before, c) {
        assert (Table(before) + [c])[..|Table(before)|] == Table(before);
      } else {
        SameUnreferenced(Table(history), Table(before));
      }
    }
  }
}
