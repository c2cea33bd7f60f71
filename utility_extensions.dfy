/** The id-keyed array edits of OctalClone/UtilityExtensions.swift: `update(with:position:)`,
    `toggle(_:_:)`, `remove(_:)`, the subscript by element, `index(matching:)` and
    `finalIndex`.

    Each edit is a function on sequences stating the new contents, and a method of
    `IdentifiedArray` that performs the source's steps on its `elements` and is proved to
    produce that function's result. */
module UtilityExtensions {
  import opened Wrappers
  import Utilities

  /** `Array.UpdatePosition`. */
  datatype UpdatePosition = Identity | Append | Prepend

  /** `Array.ToggleInsertionPosition`: `.append` inserts at the end, `.prepend` at the start. */
  datatype ToggleInsertionPosition = AtEnd | AtStart

  /** `remove(at:)`. */
  function RemoveAt<T>(s: seq<T>, i: nat): (r: seq<T>)
    requires i < |s|
    ensures |r| == |s| - 1
    ensures forall j :: 0 <= j < i ==> r[j] == s[j]
    ensures forall j :: i <= j < |r| ==> r[j] == s[j + 1]
    ensures multiset(r) + multiset{s[i]} == multiset(s)
  {
    assert s == s[..i] + [s[i]] + s[i + 1..];
    s[..i] + s[i + 1..]
  }

  /** `index(matching:)`: the first position holding the element's id. */
  function IndexMatching<T, K(==)>(s: seq<T>, idOf: T -> K, e: T): (r: Option<nat>)
    ensures r.Some? ==> r.value < |s| && idOf(s[r.value]) == idOf(e)
    ensures r.Some? ==> forall j :: 0 <= j < r.value ==> idOf(s[j]) != idOf(e)
    ensures r.None? <==> forall j :: 0 <= j < |s| ==> idOf(s[j]) != idOf(e)
  {
    Utilities.FirstIndexWhere(s, idOf, idOf(e))
  }

  /** What `update(with:position:)` needs so as not to trap: with `.identity` and the id
      present, the write goes to the index the removal just vacated, which must still exist. */
  function UpdateSafe<T, K(==)>(s: seq<T>, idOf: T -> K, e: T, position: UpdatePosition): (r: bool)
    ensures position != Identity || IndexMatching(s, idOf, e).None? ==> r
    ensures !r <==> position == Identity && IndexMatching(s, idOf, e) == Some(|s| - 1)
  {
    var i := IndexMatching(s, idOf, e);
    position == Identity && i.Some? ==> i.value + 1 < |s|
  }

  /** `update(with:position:)` as written: remove the old copy; then `.identity` assigns
      the new element over whatever now sits at the old index, `.prepend` inserts it at
      the start, and `.append` (like an absent id) appends it. */
  function Updated<T, K(==)>(s: seq<T>, idOf: T -> K, e: T, position: UpdatePosition): (r: seq<T>)
    requires UpdateSafe(s, idOf, e, position)
    ensures e in r
    ensures IndexMatching(s, idOf, e).None? ==> |r| == |s| + 1
    ensures IndexMatching(s, idOf, e).Some? && position != Identity ==> |r| == |s|
    ensures IndexMatching(s, idOf, e).Some? && position == Identity ==> |r| == |s| - 1
  {
    match IndexMatching(s, idOf, e)
    case None => s + [e]
    case Some(i) =>
      var rest := RemoveAt(s, i);
      match position
      case Identity => assert rest[i := e][i] == e; rest[i := e]
      case Prepend => [e] + rest
      case Append => rest + [e]
  }

  /** An id not present is appended, whatever the position asks for. */
  lemma UpdatedAbsent<T, K>(s: seq<T>, idOf: T -> K, e: T, position: UpdatePosition)
    requires IndexMatching(s, idOf, e).None?
    ensures UpdateSafe(s, idOf, e, position)
    ensures Updated(s, idOf, e, position) == s + [e]
  {
  }

  /** A present id with `.prepend` or `.append`: the old copy goes and the new one is put
      at the start or the end, so the length is kept. */
  lemma UpdatedPresentMoves<T, K>(s: seq<T>, idOf: T -> K, e: T, i: nat)
    requires IndexMatching(s, idOf, e) == Some(i)
    ensures Updated(s, idOf, e, Prepend) == [e] + RemoveAt(s, i)
    ensures Updated(s, idOf, e, Append) == RemoveAt(s, i) + [e]
    ensures |Updated(s, idOf, e, Prepend)| == |s| && |Updated(s, idOf, e, Append)| == |s|
  {
  }

  /** With `.identity` the new element lands at the old index but overwrites the element
      that followed the old copy: the array gets one shorter and loses that element. */
  lemma UpdatedIdentityOverwritesNext<T, K>(s: seq<T>, idOf: T -> K, e: T, i: nat)
    requires IndexMatching(s, idOf, e) == Some(i) && i + 1 < |s|
    ensures Updated(s, idOf, e, Identity) == s[..i] + [e] + s[i + 2..]
    ensures |Updated(s, idOf, e, Identity)| == |s| - 1
  {
    var r := Updated(s, idOf, e, Identity);
    assert r == s[..i] + [e] + s[i + 2..];
  }

  function IdOfPair(p: (int, int)): int {
    p.0
  }

  /** Updating (1, 9) into [(1, 0), (2, 0), (3, 0)] with `.identity` gives
      [(1, 9), (3, 0)]: the element with id 2 is gone. */
  lemma UpdatedIdentityExample()
    ensures UpdateSafe([(1, 0), (2, 0), (3, 0)], IdOfPair, (1, 9), Identity)
    ensures Updated([(1, 0), (2, 0), (3, 0)], IdOfPair, (1, 9), Identity) == [(1, 9), (3, 0)]
  {
    var s := [(1, 0), (2, 0), (3, 0)];
    assert IdOfPair(s[0]) == IdOfPair((1, 9));
    assert IndexMatching(s, IdOfPair, (1, 9)) == Some(0);
    UpdatedIdentityOverwritesNext(s, IdOfPair, (1, 9), 0);
    assert s[2..] == [(3, 0)];
  }

  /** `update(.identity)` as its documentation intends it: the element with the id is
      replaced where it stands, and an absent id is appended. */
  function UpdatedInPlace<T, K(==)>(s: seq<T>, idOf: T -> K, e: T): (r: seq<T>)
    ensures IndexMatching(s, idOf, e).None? ==> r == s + [e]
    ensures IndexMatching(s, idOf, e).Some? ==>
              var i := IndexMatching(s, idOf, e).value;
              |r| == |s| && r[i] == e && forall j :: 0 <= j < |s| && j != i ==> r[j] == s[j]
  {
    match IndexMatching(s, idOf, e)
    case None => s + [e]
    case Some(i) => s[i := e]
  }

  /** Updating in place twice with the same id keeps only the second value, and the
      element then stands where the first copy stood. */
  lemma UpdatedInPlaceTwice<T, K>(s: seq<T>, idOf: T -> K, e: T, f: T)
    requires idOf(f) == idOf(e)
    ensures UpdatedInPlace(UpdatedInPlace(s, idOf, e), idOf, f) == UpdatedInPlace(s, idOf, f)
  {
    var r := UpdatedInPlace(s, idOf, e);
    match IndexMatching(s, idOf, e)
    case None =>
      AppendedIsFirstMatch(s, idOf, e, f);
    case Some(i) =>
      assert IndexMatching(r, idOf, f) == Some(i);
  }

  /** An element appended to a list without its id is the first match of that id. */
  lemma AppendedIsFirstMatch<T, K>(s: seq<T>, idOf: T -> K, e: T, f: T)
    requires IndexMatching(s, idOf, e).None? && idOf(f) == idOf(e)
    ensures IndexMatching(s + [e], idOf, f) == Some(|s|)
  {
    var t := s + [e];
    assert idOf(t[|s|]) == idOf(f);
    assert forall j :: 0 <= j < |s| ==> t[j] == s[j];
  }

  /** `toggle(_:_:)`: a present id is removed, an absent one inserted at the end or the start. */
  function Toggled<T, K(==)>(s: seq<T>, idOf: T -> K, e: T, position: ToggleInsertionPosition): (r: seq<T>)
    ensures IndexMatching(s, idOf, e).Some? ==>
              var i := IndexMatching(s, idOf, e).value;
              |r| == |s| - 1 && r[..i] == s[..i] && r[i..] == s[i + 1..]
    ensures IndexMatching(s, idOf, e).None? ==> |r| == |s| + 1
    ensures IndexMatching(s, idOf, e).None? && position == AtEnd ==> r[..|s|] == s && r[|s|] == e
    ensures IndexMatching(s, idOf, e).None? && position == AtStart ==> r[0] == e && r[1..] == s
  {
    match IndexMatching(s, idOf, e)
    case Some(i) => RemoveAt(s, i)
    case None => if position == AtEnd then s + [e] else [e] + s
  }

  /** Toggling an absent element twice from the same position gives the array back. */
  lemma ToggleTwiceRestores<T, K>(s: seq<T>, idOf: T -> K, e: T, position: ToggleInsertionPosition)
    requires IndexMatching(s, idOf, e).None?
    ensures Toggled(Toggled(s, idOf, e, position), idOf, e, position) == s
  {
    var t := Toggled(s, idOf, e, position);
    if position == AtEnd {
      assert t == s + [e];
      AppendedIsFirstMatch(s, idOf, e, e);
      assert t[..|s|] == s;
    } else {
      assert t == [e] + s;
      assert IndexMatching(t, idOf, e) == Some(0);
      assert t[1..] == s;
    }
  }

  /** `remove(_:)`: the first element with the id goes; without one nothing changes. */
  function Removed<T, K(==)>(s: seq<T>, idOf: T -> K, e: T): (r: seq<T>)
    ensures IndexMatching(s, idOf, e).None? ==> r == s
    ensures IndexMatching(s, idOf, e).Some? ==>
              var i := IndexMatching(s, idOf, e).value;
              |r| == |s| - 1 && multiset(r) + multiset{s[i]} == multiset(s)
              && r[..i] == s[..i] && r[i..] == s[i + 1..]
  {
    match IndexMatching(s, idOf, e)
    case None => s
    case Some(i) => RemoveAt(s, i)
  }

  /** Toggling a present element is removing it. */
  lemma ToggleOfPresentRemoves<T, K>(s: seq<T>, idOf: T -> K, e: T, position: ToggleInsertionPosition)
    requires IndexMatching(s, idOf, e).Some?
    ensures Toggled(s, idOf, e, position) == Removed(s, idOf, e)
  {
  }

  /** The subscript getter: the first element with the argument's id, or the argument. */
  function ElementMatching<T, K(==)>(s: seq<T>, idOf: T -> K, e: T): (r: T)
    ensures idOf(r) == idOf(e)
    ensures r == e || r in s
    ensures IndexMatching(s, idOf, e).None? ==> r == e
    ensures IndexMatching(s, idOf, e).Some? ==> r == s[IndexMatching(s, idOf, e).value]
  {
    match IndexMatching(s, idOf, e)
    case Some(i) => s[i]
    case None => e
  }

  /** The subscript setter: the first element with the key's id is replaced by the new
      value; without one nothing changes. */
  function Replaced<T, K(==)>(s: seq<T>, idOf: T -> K, key: T, newValue: T): (r: seq<T>)
    ensures |r| == |s|
    ensures IndexMatching(s, idOf, key).None? ==> r == s
    ensures IndexMatching(s, idOf, key).Some? ==>
              forall j :: 0 <= j < |s| ==> r[j] == if j == IndexMatching(s, idOf, key).value then newValue else s[j]
  {
    match IndexMatching(s, idOf, key)
    case None => s
    case Some(i) => s[..i] + [newValue] + s[i + 1..]
  }

  /** Reading back what was set under the same id gives the value set. */
  lemma GetAfterSet<T, K>(s: seq<T>, idOf: T -> K, key: T, newValue: T)
    requires IndexMatching(s, idOf, key).Some? && idOf(newValue) == idOf(key)
    ensures ElementMatching(Replaced(s, idOf, key, newValue), idOf, key) == newValue
  {
    var i := IndexMatching(s, idOf, key).value;
    assert IndexMatching(Replaced(s, idOf, key, newValue), idOf, key) == Some(i);
  }

  /** An `Array` of identifiable elements, edited in place. */
  class IdentifiedArray<T, K(==)> {
    var elements: seq<T>
    const idOf: T -> K

    constructor (xs: seq<T>, idOf: T -> K)
      ensures elements == xs && this.idOf == idOf
    {
      elements := xs;
      this.idOf := idOf;
    }

    /** `index(matching:)` on the current contents. */
    function IndexOf(e: T): (r: Option<nat>)
      reads this
      ensures r.Some? ==> r.value < |elements| && idOf(elements[r.value]) == idOf(e)
      ensures r.None? <==> forall j :: 0 <= j < |elements| ==> idOf(elements[j]) != idOf(e)
    {
      IndexMatching(elements, idOf, e)
    }

    /** `finalIndex`: one before `endIndex`, the last valid index when there is one. */
    function FinalIndex(): (r: int)
      reads this
      ensures elements != [] ==> 0 <= r < |elements| && r + 1 == |elements|
      ensures elements == [] ==> r < 0
    {
      |elements| - 1
    }

    /** The subscript getter. */
    function Get(e: T): (r: T)
      reads this
      ensures idOf(r) == idOf(e)
      ensures r == ElementMatching(elements, idOf, e)
    {
      match IndexOf(e)
      case Some(i) => elements[i]
      case None => e
    }

    method Update(e: T, position: UpdatePosition)
      requires UpdateSafe(elements, idOf, e, position)
      modifies this
      ensures elements == Updated(old(elements), idOf, e, position)
    {
      var index := IndexOf(e);
      if index.Some? {
        elements := RemoveAt(elements, index.value);
        if position == Identity {
          elements := elements[index.value := e];
          return;
        } else if position == Prepend {
          elements := [e] + elements;
          return;
        }
      }
      elements := elements + [e];
    }

    method Toggle(e: T, position: ToggleInsertionPosition)
      modifies this
      ensures elements == Toggled(old(elements), idOf, e, position)
    {
      var index := IndexOf(e);
      if index.Some? {
        elements := RemoveAt(elements, index.value);
      } else {
        var at := if position == AtEnd then |elements| else 0;
        elements := elements[..at] + [e] + elements[at..];
      }
    }

    method Remove(e: T)
      modifies this
      ensures elements == Removed(old(elements), idOf, e)
    {
      var index := IndexOf(e);
      if index.Some? {
        elements := RemoveAt(elements, index.value);
      }
    }

    /** The subscript setter: `replaceSubrange(idx...idx, with: [newValue])`. */
    method Set(key: T, newValue: T)
      modifies this
      ensures elements == Replaced(old(elements), idOf, key, newValue)
    {
      var index := IndexOf(key);
      if index.Some? {
        var i := index.value;
        elements := elements[..i] + [newValue] + elements[i + 1..];
      }
    }
  }
}
