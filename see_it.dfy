/**
  The "see it in your room" editor (see_it.js): furniture pictures placed on a room photo, at
  most one of them selected. The page state is the list of furniture elements in the room and
  `window.sirActiveFurniture`; each element is known by a handle standing for its DOM identity.
 */
module SeeIt {
  import opened Maybe

  /** One `.sir-furniture-item` element: catalogue data, inline style, and the `selected` class. */
  datatype Piece = Piece(
    handle: nat,
    itemId: string,
    imageUrl: string,
    name: string,
    left: string,
    top: string,
    zIndex: Option<int>,   // the inline `z-index`; None when unset or not a number
    cursor: string,
    selected: bool)

  /** `parseInt(f.style.zIndex, 10) || 0`. */
  function ZValue(p: Piece): int {
    p.zIndex.GetOr(0)
  }

  /** The `maxZ` the bring-to-front loop computes: 0, raised to every larger z-index. */
  function MaxZ(pieces: seq<Piece>): (m: int)
    ensures m >= 0
    ensures forall i :: 0 <= i < |pieces| ==> ZValue(pieces[i]) <= m
  {
    if |pieces| == 0 then 0
    else
      var m := MaxZ(pieces[..|pieces| - 1]);
      var z := ZValue(pieces[|pieces| - 1]);
      assert forall i :: 0 <= i < |pieces| - 1 ==> pieces[i] == pieces[..|pieces| - 1][i];
      if z > m then z else m
  }

  /** The two elements agree on everything but the `selected` class and, if `andZ`, the z-index. */
  predicate SameElement(a: Piece, b: Piece, andZ: bool) {
    && a.handle == b.handle && a.itemId == b.itemId && a.imageUrl == b.imageUrl && a.name == b.name
    && a.left == b.left && a.top == b.top && a.cursor == b.cursor && (andZ ==> a.zIndex == b.zIndex)
  }

  predicate HandlesDistinct(pieces: seq<Piece>) {
    forall i, j :: 0 <= i < j < |pieces| ==> pieces[i].handle != pieces[j].handle
  }

  /**
    The room invariant on values: handles are distinct and all issued; an element is selected
    exactly when it is the active one, and the active element is in the room.
   */
  predicate Consistent(pieces: seq<Piece>, active: Option<nat>, nextHandle: nat) {
    && HandlesDistinct(pieces)
    && (forall i :: 0 <= i < |pieces| ==> pieces[i].handle < nextHandle)
    && (forall i :: 0 <= i < |pieces| ==> (pieces[i].selected <==> active == Some(pieces[i].handle)))
    && (active.Some? ==> exists i :: 0 <= i < |pieces| && pieces[i].handle == active.value)
  }

  /** Changing anything but handles and marks keeps the room consistent. */
  lemma SameMarksConsistent(before: seq<Piece>, after: seq<Piece>, active: Option<nat>, nextHandle: nat)
    requires Consistent(before, active, nextHandle)
    requires |after| == |before|
    requires forall i :: 0 <= i < |after| ==> after[i].handle == before[i].handle && after[i].selected == before[i].selected
    ensures Consistent(after, active, nextHandle)
  {
    if active.Some? {
      var i :| 0 <= i < |before| && before[i].handle == active.value;
      assert after[i].handle == active.value;
    }
  }

  /** Only the k-th element selected, everything else as before: consistent with k active. */
  lemma SelectedConsistent(before: seq<Piece>, after: seq<Piece>, k: nat, nextHandle: nat)
    requires HandlesDistinct(before) && (forall i :: 0 <= i < |before| ==> before[i].handle < nextHandle)
    requires |after| == |before| && k < |after|
    requires forall i :: 0 <= i < |after| ==> after[i].handle == before[i].handle
    requires after[k].selected && forall i :: 0 <= i < |after| && i != k ==> !after[i].selected
    ensures Consistent(after, Some(after[k].handle), nextHandle)
  {
    forall i | 0 <= i < |after| && i != k
      ensures after[i].handle != after[k].handle
    {
      if i < k {
        assert before[i].handle != before[k].handle;
      } else {
        assert before[k].handle != before[i].handle;
      }
    }
  }

  /** Unmarking the element with handle h, and dropping it as active, keeps the room consistent. */
  lemma DeselectedConsistent(before: seq<Piece>, after: seq<Piece>, active: Option<nat>, h: nat, nextHandle: nat)
    requires Consistent(before, active, nextHandle)
    requires |after| == |before|
    requires forall i :: 0 <= i < |after| ==>
               after[i].handle == before[i].handle && after[i].selected == (before[i].selected && before[i].handle != h)
    ensures Consistent(after, if active == Some(h) then None else active, nextHandle)
  {
    if active.Some? && active != Some(h) {
      var i :| 0 <= i < |before| && before[i].handle == active.value;
      assert after[i].handle == active.value;
    }
  }

  /** Where the mouse button went down. */
  datatype Target = Background | OnPiece(index: nat) | OtherChild

  class Room {
    var pieces: seq<Piece>
    var active: Option<nat>
    var nextHandle: nat

    /**
      Handles are distinct and all issued; an element is selected exactly when it is the
      active one, and the active element is in the room.
     */
    ghost predicate Valid()
      reads this
    {
      Consistent(pieces, active, nextHandle)
    }

    /** The page after loading: no furniture and `window.sirActiveFurniture = null`. */
    constructor ()
      ensures Valid() && pieces == [] && active == None
    {
      pieces := [];
      active := None;
      nextHandle := 0;
    }

    /** The bring-to-front loop over all furniture of the room. */
    method TopZ() returns (maxZ: int)
      ensures maxZ == MaxZ(pieces)
    {
      maxZ := 0;
      var i := 0;
      while i < |pieces|
        invariant 0 <= i <= |pieces|
        invariant maxZ == MaxZ(pieces[..i])
      {
        assert pieces[..i + 1][..i] == pieces[..i];
        var currentZ := ZValue(pieces[i]);
        if currentZ > maxZ {
          maxZ := currentZ;
        }
        i := i + 1;
      }
      assert pieces[..i] == pieces;
    }

    /**
      `deselectFurniture(element)`: the element loses `selected`, and the active element is
      cleared only when it is this one; nothing else changes.
     */
    method Deselect(h: nat)
      requires Valid()
      modifies this
      ensures Valid() && nextHandle == old(nextHandle) && |pieces| == |old(pieces)|
      ensures forall i :: 0 <= i < |pieces| ==>
                SameElement(pieces[i], old(pieces[i]), true)
                && pieces[i].selected == (old(pieces[i]).selected && old(pieces[i]).handle != h)
      ensures active == if old(active) == Some(h) then None else old(active)
    {
      ghost var before := pieces;
      pieces := seq(|pieces|, (i: int) requires 0 <= i < |pieces| reads this =>
                      if pieces[i].handle == h then pieces[i].(selected := false) else pieces[i]);
      DeselectedConsistent(before, pieces, active, h, nextHandle);
      if active == Some(h) {
        active := None;
      }
    }

    /**
      `selectFurniture(element)` on the k-th element: a different active element is first
      deselected; then this one is selected, made active, and given z-index 1 + the largest
      z-index in the room, which is above every other element; the other elements keep their
      place and z-index and are no longer selected.
     */
    method Select(k: nat)
      requires Valid() && k < |pieces|
      modifies this
      ensures Valid() && nextHandle == old(nextHandle) && |pieces| == |old(pieces)|
      ensures active == Some(pieces[k].handle)
      ensures pieces[k].selected && SameElement(pieces[k], old(pieces[k]), false)
      ensures pieces[k].zIndex == Some(MaxZ(old(pieces)) + 1)
      ensures forall i :: 0 <= i < |pieces| && i != k ==>
                SameElement(pieces[i], old(pieces[i]), true) && !pieces[i].selected
      ensures forall i :: 0 <= i < |pieces| && i != k ==> ZValue(pieces[i]) < ZValue(pieces[k])
    {
      var h := pieces[k].handle;
      ghost var p0 := pieces;
      if active.Some? && active.value != h {
        Deselect(active.value);
      }
      ghost var p1 := pieces;
      MaxZSameValues(p0, p1);
      BringToFront(k);
      SelectComposes(p0, p1, pieces, k);
    }

    /**
      The rest of `selectFurniture` once no other element is active: mark the element, raise it
      above the room's largest z-index and make it active.
     */
    method BringToFront(k: nat)
      requires Valid() && k < |pieces| && (active.None? || active == Some(pieces[k].handle))
      modifies this
      ensures Valid() && nextHandle == old(nextHandle) && |pieces| == |old(pieces)|
      ensures active == Some(pieces[k].handle)
      ensures pieces[k].selected && SameElement(pieces[k], old(pieces[k]), false)
      ensures pieces[k].zIndex == Some(MaxZ(old(pieces)) + 1)
      ensures forall i :: 0 <= i < |pieces| && i != k ==> pieces[i] == old(pieces[i]) && !pieces[i].selected
      ensures forall i :: 0 <= i < |pieces| && i != k ==> ZValue(pieces[i]) < ZValue(pieces[k])
    {
      var h := pieces[k].handle;
      var maxZ := TopZ();
      ghost var unmarked := pieces;
      pieces := pieces[k := pieces[k].(selected := true, zIndex := Some(maxZ + 1))];
      SelectedConsistent(unmarked, pieces, k, nextHandle);
      active := Some(h);
    }

    /**
      `addFurnitureToRoom(itemData)`: when the template holds a furniture element, a new
      element at left/top 10px is appended and selected, so it is the active and topmost one;
      otherwise nothing changes.
     */
    method Add(itemId: string, imageUrl: string, name: string, templateHasItem: bool)
      requires Valid()
      modifies this
      ensures Valid()
      ensures !templateHasItem ==> pieces == old(pieces) && active == old(active)
      ensures templateHasItem ==>
                && |pieces| == |old(pieces)| + 1
                && var p := pieces[|pieces| - 1];
                && p.itemId == itemId && p.imageUrl == imageUrl && p.name == name
                && p.left == "10px" && p.top == "10px" && p.selected
                && active == Some(p.handle)
                && (forall i :: 0 <= i < |old(pieces)| ==> p.handle != old(pieces)[i].handle)
                && (forall i :: 0 <= i < |old(pieces)| ==>
                      SameElement(pieces[i], old(pieces)[i], true) && !pieces[i].selected
                      && ZValue(pieces[i]) < ZValue(p))
    {
      if !templateHasItem {
        return;
      }
      var newFurniture := Piece(nextHandle, itemId, imageUrl, name, "10px", "10px", None, "", false);
      pieces := pieces + [newFurniture];
      nextHandle := nextHandle + 1;
      Select(|pieces| - 1);
    }

    /** `clearFurnitureFromRoom()`: every element is removed and no element is active. */
    method Clear()
      requires Valid()
      modifies this
      ensures Valid() && pieces == [] && active == None && nextHandle == old(nextHandle)
    {
      pieces := [];
      // `deselectFurniture` then only touches the already removed element
      active := None;
    }

    /**
      `onFurnitureMouseDown` on the k-th element: it is selected (active, given z-index 1 + the
      room's largest) and shows the grabbing cursor, its other attributes kept; the other
      elements keep everything but their mark and are unselected; the event does not propagate.
     */
    method ItemMouseDown(k: nat) returns (propagated: bool)
      requires Valid() && k < |pieces|
      modifies this
      ensures Valid() && nextHandle == old(nextHandle) && |pieces| == |old(pieces)| && !propagated
      ensures active == Some(pieces[k].handle) && pieces[k].selected && pieces[k].cursor == "grabbing"
      ensures SameElement(pieces[k].(cursor := old(pieces[k]).cursor), old(pieces[k]), false)
      ensures pieces[k].zIndex == Some(MaxZ(old(pieces)) + 1)
      ensures forall i :: 0 <= i < |pieces| && i != k ==>
                SameElement(pieces[i], old(pieces[i]), true) && !pieces[i].selected
      ensures forall i :: 0 <= i < |pieces| && i != k ==> ZValue(pieces[i]) < ZValue(pieces[k])
    {
      Select(k);
      ghost var selected := pieces;
      pieces := pieces[k := pieces[k].(cursor := "grabbing")];
      SameMarksConsistent(selected, pieces, active, nextHandle);
      propagated := false;
    }

    /**
      The room's own mousedown handler: on the bare room the active element is deselected, so
      no element is selected and every element keeps all its other attributes.
     */
    method RoomMouseDown(targetIsRoom: bool)
      requires Valid()
      modifies this
      ensures Valid() && nextHandle == old(nextHandle) && |pieces| == |old(pieces)|
      ensures targetIsRoom ==> active == None
      ensures targetIsRoom ==> forall i :: 0 <= i < |pieces| ==>
                SameElement(pieces[i], old(pieces[i]), true) && !pieces[i].selected
      ensures !targetIsRoom ==> pieces == old(pieces) && active == old(active)
    {
      if targetIsRoom && active.Some? {
        Deselect(active.value);
      }
    }

    /**
      A mousedown in the room. On an element its own handler runs and stops propagation, so the
      room's handler never undoes the selection; elsewhere the event reaches the room's handler,
      which deselects only when the target is the room itself.
     */
    method MouseDown(target: Target) returns (propagated: bool)
      requires Valid()
      requires target.OnPiece? ==> target.index < |pieces|
      modifies this
      ensures Valid() && nextHandle == old(nextHandle) && |pieces| == |old(pieces)|
      ensures propagated <==> !target.OnPiece?
      ensures target.OnPiece? ==>
                var k := target.index;
                && active == Some(pieces[k].handle) && pieces[k].selected && pieces[k].cursor == "grabbing"
                && SameElement(pieces[k].(cursor := old(pieces[k]).cursor), old(pieces[k]), false)
                && pieces[k].zIndex == Some(MaxZ(old(pieces)) + 1)
                && forall i :: 0 <= i < |pieces| && i != k ==>
                     SameElement(pieces[i], old(pieces[i]), true) && !pieces[i].selected
                     && ZValue(pieces[i]) < ZValue(pieces[k])
      ensures target.Background? ==> active == None
      ensures target.Background? ==> forall i :: 0 <= i < |pieces| ==>
                SameElement(pieces[i], old(pieces[i]), true) && !pieces[i].selected
      ensures target.OtherChild? ==> pieces == old(pieces) && active == old(active)
    {
      match target {
        case OnPiece(k) =>
          propagated := ItemMouseDown(k);
        case Background =>
          RoomMouseDown(true);
          propagated := true;
        case OtherChild =>
          RoomMouseDown(false);
          propagated := true;
      }
    }
  }

  /**
    The two halves of `selectFurniture`: a deselection that keeps every element but its mark
    (p0 to p1), then the k-th element marked and raised, the rest untouched (p1 to p2).
   */
  lemma SelectComposes(p0: seq<Piece>, p1: seq<Piece>, p2: seq<Piece>, k: nat)
    requires |p0| == |p1| == |p2| && k < |p2|
    requires forall i :: 0 <= i < |p1| ==> SameElement(p1[i], p0[i], true)
    requires SameElement(p2[k], p1[k], false)
    requires forall i :: 0 <= i < |p2| && i != k ==> p2[i] == p1[i] && !p2[i].selected
    ensures SameElement(p2[k], p0[k], false)
    ensures forall i :: 0 <= i < |p2| && i != k ==> SameElement(p2[i], p0[i], true) && !p2[i].selected
  {
  }

  /** The maximum is 0 or the z-index of some element. */
  lemma {:induction false} MaxZAttained(pieces: seq<Piece>)
    ensures MaxZ(pieces) == 0 || exists i :: 0 <= i < |pieces| && ZValue(pieces[i]) == MaxZ(pieces)
  {
    if |pieces| > 0 {
      var n := |pieces| - 1;
      MaxZAttained(pieces[..n]);
      if MaxZ(pieces) != 0 && MaxZ(pieces) != ZValue(pieces[n]) {
        var i :| 0 <= i < n && ZValue(pieces[..n][i]) == MaxZ(pieces[..n]);
        assert pieces[i] == pieces[..n][i];
      }
    }
  }

  /** Elements with the same z-values give the same maximum. */
  lemma {:induction false} MaxZSameValues(a: seq<Piece>, b: seq<Piece>)
    requires |a| == |b| && forall i :: 0 <= i < |a| ==> ZValue(a[i]) == ZValue(b[i])
    ensures MaxZ(a) == MaxZ(b)
  {
    if |a| > 0 {
      var n := |a| - 1;
      assert forall i :: 0 <= i < n ==> a[..n][i] == a[i] && b[..n][i] == b[i];
      MaxZSameValues(a[..n], b[..n]);
    }
  }

  /** Under the room invariant at most one element is selected, and it is the active one. */
  lemma AtMostOneSelected(r: Room, i: nat, j: nat)
    requires r.Valid() && i < |r.pieces| && j < |r.pieces|
    requires r.pieces[i].selected && r.pieces[j].selected
    ensures i == j && r.active == Some(r.pieces[i].handle)
  {
  }
}
