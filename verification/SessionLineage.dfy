/** Rotation lineage: which session each session was rotated from. The service does
    not store it; runs record it as history when a session row is inserted. */
module SessionLineage {

  import opened Prelude
  import opened SessionDomain

  /** `rank` is the number of sessions inserted before this one. */
  datatype Birth = Birth(parent: Option<SessionId>, rank: nat)

  type History = map<SessionId, Birth>

  /** A session was inserted after the one it was rotated from. */
  predicate BornAfterParent(h: History, id: SessionId)
    requires id in h
  {
    h[id].parent.Some? ==> h[id].parent.value in h && h[h[id].parent.value].rank < h[id].rank
  }

  ghost predicate WellFounded(h: History) {
    forall id :: id in h ==> BornAfterParent(h, id)
  }

  ghost predicate OneChildEach(h: History) {
    forall x, y :: x in h && y in h && h[x].parent.Some? && h[x].parent == h[y].parent ==> x == y
  }

  /** The login at the start of this session's rotations. */
  ghost function Root(h: History, id: SessionId): SessionId
    requires WellFounded(h) && id in h
    decreases h[id].rank
  {
    assert BornAfterParent(h, id);
    if h[id].parent.None? then id else Root(h, h[id].parent.value)
  }

  /** How many rotations lie between the login and this session. */
  ghost function Depth(h: History, id: SessionId): nat
    requires WellFounded(h) && id in h
    decreases h[id].rank
  {
    assert BornAfterParent(h, id);
    if h[id].parent.None? then 0 else 1 + Depth(h, h[id].parent.value)
  }

  /** `id` is `ancestor` or was reached from it by rotations. */
  ghost predicate Descends(h: History, id: SessionId, ancestor: SessionId)
    requires WellFounded(h) && id in h
    decreases h[id].rank
  {
    assert BornAfterParent(h, id);
    id == ancestor || (h[id].parent.Some? && Descends(h, h[id].parent.value, ancestor))
  }

  lemma {:induction false} RootIsALogin(h: History, id: SessionId)
    requires WellFounded(h) && id in h
    ensures Root(h, id) in h && h[Root(h, id)].parent.None?
    decreases h[id].rank
  {
    assert BornAfterParent(h, id);
    if h[id].parent.Some? {
      RootIsALogin(h, h[id].parent.value);
    }
  }

  lemma {:induction false} OnePerDepth(h: History, x: SessionId, y: SessionId)
    requires WellFounded(h) && OneChildEach(h) && x in h && y in h
    requires Root(h, x) == Root(h, y) && Depth(h, x) == Depth(h, y)
    ensures x == y
    decreases h[x].rank
  {
    assert BornAfterParent(h, x) && BornAfterParent(h, y);
    if h[x].parent.Some? {
      OnePerDepth(h, h[x].parent.value, h[y].parent.value);
    }
  }

  lemma {:induction false} AncestorAt(h: History, id: SessionId, depth: nat) returns (a: SessionId)
    requires WellFounded(h) && id in h && depth <= Depth(h, id)
    ensures a in h && Descends(h, id, a) && Root(h, a) == Root(h, id) && Depth(h, a) == depth
    decreases h[id].rank
  {
    assert BornAfterParent(h, id);
    if depth == Depth(h, id) {
      a := id;
    } else {
      a := AncestorAt(h, h[id].parent.value, depth);
    }
  }

  /** The descendants of one login form a chain: of any two, one comes from the other. */
  lemma FamilyIsChain(h: History, x: SessionId, y: SessionId)
    requires WellFounded(h) && OneChildEach(h) && x in h && y in h && Root(h, x) == Root(h, y)
    ensures Descends(h, x, y) || Descends(h, y, x)
  {
    if Depth(h, x) <= Depth(h, y) {
      var a := AncestorAt(h, y, Depth(h, x));
      OnePerDepth(h, a, x);
    } else {
      var a := AncestorAt(h, x, Depth(h, y));
      OnePerDepth(h, a, y);
    }
  }

  ghost predicate Comparable(h: History, x: SessionId, y: SessionId)
    requires WellFounded(h) && x in h && y in h
  {
    Root(h, x) == Root(h, y) ==> Descends(h, x, y) || Descends(h, y, x)
  }

  lemma {:induction false} AncestorIsOlder(h: History, id: SessionId, ancestor: SessionId)
    requires WellFounded(h) && id in h && Descends(h, id, ancestor)
    ensures ancestor in h && h[ancestor].rank <= h[id].rank
    decreases h[id].rank
  {
    assert BornAfterParent(h, id);
    if id != ancestor {
      AncestorIsOlder(h, h[id].parent.value, ancestor);
    }
  }

  /** Siblings do not descend from one another. */
  lemma SiblingsAreNotComparable(h: History, x: SessionId, y: SessionId)
    requires WellFounded(h) && x in h && y in h && x != y && h[x].parent.Some? && h[x].parent == h[y].parent
    ensures !Comparable(h, x, y)
  {
    assert BornAfterParent(h, x) && BornAfterParent(h, y);
    var parent := h[x].parent.value;
    if Descends(h, x, y) { AncestorIsOlder(h, parent, y); }
    if Descends(h, y, x) { AncestorIsOlder(h, parent, x); }
  }

  /** All families are chains exactly when no session was rotated twice. */
  lemma ChainsIffOneChildEach(h: History)
    requires WellFounded(h)
    ensures OneChildEach(h) <==> forall x, y :: x in h && y in h ==> Comparable(h, x, y)
  {
    if OneChildEach(h) {
      forall x, y | x in h && y in h ensures Comparable(h, x, y) {
        if Root(h, x) == Root(h, y) { FamilyIsChain(h, x, y); }
      }
    } else {
      var x, y :| x in h && y in h && h[x].parent.Some? && h[x].parent == h[y].parent && x != y;
      SiblingsAreNotComparable(h, x, y);
    }
  }

  ghost predicate Rotated(h: History, id: SessionId) {
    exists child :: child in h && h[child].parent == Some(id)
  }

  lemma {:induction false} ProperAncestorWasRotated(h: History, id: SessionId, ancestor: SessionId)
    requires WellFounded(h) && id in h && Descends(h, id, ancestor) && id != ancestor
    ensures Rotated(h, ancestor)
    decreases h[id].rank
  {
    assert BornAfterParent(h, id);
    if h[id].parent != Some(ancestor) {
      ProperAncestorWasRotated(h, h[id].parent.value, ancestor);
    }
  }

  // --------------------------------------------- lineage against the table

  /** A rotated session is inactive, and its successor has the same user and auth method. */
  predicate ChildOk(table: Table, h: History, child: SessionId) {
    child in h && h[child].parent.Some? ==>
      && child in table && h[child].parent.value in table
      && !table[h[child].parent.value].isActive
      && table[h[child].parent.value].userId == table[child].userId
      && table[h[child].parent.value].authMethod == table[child].authMethod
  }

  ghost predicate HistoryOk(table: Table, h: History) {
    && Keyed(table) && h.Keys == table.Keys && WellFounded(h)
    && (forall id :: id in h ==> h[id].rank < |h|)
    && (forall id :: id in h ==> ChildOk(table, h, id))
  }

  lemma RotatedIsInactive(table: Table, h: History, id: SessionId)
    requires HistoryOk(table, h) && Rotated(h, id)
    ensures id in table && !table[id].isActive
  {
    var child :| child in h && h[child].parent == Some(id);
    assert ChildOk(table, h, child);
  }

  /** Where families are chains, only the last session of a family can be active. */
  lemma OneActivePerFamily(table: Table, h: History, x: SessionId, y: SessionId)
    requires HistoryOk(table, h) && x in h && y in h && Comparable(h, x, y) && Root(h, x) == Root(h, y)
    requires table[x].isActive && table[y].isActive
    ensures x == y
  {
    if x != y {
      if Descends(h, x, y) {
        ProperAncestorWasRotated(h, x, y);
        RotatedIsInactive(table, h, y);
      } else {
        ProperAncestorWasRotated(h, y, x);
        RotatedIsInactive(table, h, x);
      }
    }
  }

  /** Rows never disappear, and the only thing that ever changes in one is that it is closed. */
  ghost predicate OnlyCloses(table: Table, table': Table) {
    forall id :: id in table ==> id in table' && (table'[id] == table[id] || table'[id] == Invalidated(table[id]))
  }

  /** Closing sessions only ever helps. */
  lemma HistorySurvivesClosing(table: Table, h: History, table': Table)
    requires HistoryOk(table, h) && Keyed(table') && OnlyCloses(table, table') && table'.Keys == table.Keys
    ensures HistoryOk(table', h)
  {
    forall id | id in h ensures ChildOk(table', h, id) {
      assert ChildOk(table, h, id);
    }
  }

  lemma BirthIsLast(h: History, newId: SessionId, parent: Option<SessionId>)
    requires WellFounded(h) && (forall id :: id in h ==> h[id].rank < |h|)
    requires newId !in h && (parent.Some? ==> parent.value in h)
    ensures var h' := h[newId := Birth(parent, |h|)];
            WellFounded(h') && forall id :: id in h' ==> h'[id].rank < |h'|
  {
    var h' := h[newId := Birth(parent, |h|)];
    assert |h'| == |h| + 1;
    forall id | id in h' ensures BornAfterParent(h', id) {
      if id in h {
        assert BornAfterParent(h, id);
      }
    }
  }

  lemma HistoryGrows(table: Table, h: History, table': Table, newId: SessionId, parent: Option<SessionId>)
    requires HistoryOk(table, h) && Keyed(table') && OnlyCloses(table, table')
    requires newId !in table && table'.Keys == table.Keys + {newId}
    requires parent.Some? ==>
               && parent.value in table && !table'[parent.value].isActive
               && table[parent.value].userId == table'[newId].userId
               && table[parent.value].authMethod == table'[newId].authMethod
    ensures HistoryOk(table', h[newId := Birth(parent, |h|)])
  {
    var h' := h[newId := Birth(parent, |h|)];
    BirthIsLast(h, newId, parent);
    forall id | id in h' ensures ChildOk(table', h', id) {
      if id in h {
        assert ChildOk(table, h, id);
      }
    }
  }

  lemma FirstChildKeepsChains(h: History, newId: SessionId, birth: Birth)
    requires OneChildEach(h) && newId !in h && (birth.parent.Some? ==> !Rotated(h, birth.parent.value))
    ensures OneChildEach(h[newId := birth])
  {
    var h' := h[newId := birth];
    forall x, y | x in h' && y in h' && h'[x].parent.Some? && h'[x].parent == h'[y].parent ensures x == y {
      var parent := h'[x].parent.value;
      assert x in h || y in h ==> Rotated(h, parent);
    }
  }
}
