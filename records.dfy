/**
 * Application icons as the app grid sees them, and the two list helpers the
 * grid refresh uses on them: taking the id of every icon, and keeping the
 * icons whose id is not in a given list of ids.
 */
module AppRecords {

  datatype Option<T> = None | Some(value: T)

  /**
   * One icon of the application grid. Both the desktop-entry id
   * (e.g. "org.gnome.Maps.desktop") and the display name may be absent.
   * Icons are compared as values: two icons with the same id and name are
   * the same icon in this model.
   */
  datatype Icon = Icon(id: Option<string>, name: Option<string>)

  /** JavaScript truthiness of an optional string: absent and "" are falsy. */
  predicate Truthy(s: Option<string>)
  {
    s.Some? && s.value != ""
  }

  /** The ids of `items`, in order. */
  function Ids(items: seq<Icon>): (ids: seq<Option<string>>)
    ensures |ids| == |items|
    ensures forall i {:trigger ids[i]} :: 0 <= i < |items| ==> ids[i] == items[i].id
  {
    if items == [] then [] else [items[0].id] + Ids(items[1..])
  }

  /** The items whose id is not among `ids`, in their original order. */
  function Without(items: seq<Icon>, ids: seq<Option<string>>): (kept: seq<Icon>)
    ensures forall x {:trigger x in kept} :: x in kept <==> x in items && x.id !in ids
    ensures |kept| <= |items|
  {
    if items == [] then []
    else (if items[0].id in ids then [] else [items[0]]) + Without(items[1..], ids)
  }

  /** Each item whose id is not among `ids` is kept as often as it occurs; the others never. */
  lemma {:induction false} WithoutCounts(items: seq<Icon>, ids: seq<Option<string>>)
    ensures forall x :: multiset(Without(items, ids))[x] == if x.id in ids then 0 else multiset(items)[x]
  {
    if items != [] {
      WithoutCounts(items[1..], ids);
      assert items == [items[0]] + items[1..];
    }
  }

  /**
   * The filter keeps the input's order: filtering a concatenation is
   * concatenating the filtered parts.
   */
  lemma {:induction false} WithoutKeepsOrder(a: seq<Icon>, b: seq<Icon>, ids: seq<Option<string>>)
    ensures Without(a + b, ids) == Without(a, ids) + Without(b, ids)
  {
    if a == [] {
      assert a + b == b;
    } else {
      var ab := a + b;
      var head := if a[0].id in ids then [] else [a[0]];
      WithoutKeepsOrder(a[1..], b, ids);
      assert ab[0] == a[0];
      assert ab[1..] == a[1..] + b;
      WithoutStep(ab, ids);
      WithoutStep(a, ids);
      AppendAssoc(head, Without(a[1..], ids), Without(b, ids));
    }
  }

  /** A single item is kept exactly when its id is not among `ids`. */
  lemma WithoutSingle(x: Icon, ids: seq<Option<string>>)
    ensures Without([x], ids) == if x.id in ids then [] else [x]
  {
    WithoutStep([x], ids);
    assert [x][1..] == [];
  }

  /** One step of the filter, on the first item. */
  lemma WithoutStep(items: seq<Icon>, ids: seq<Option<string>>)
    requires items != []
    ensures Without(items, ids)
            == (if items[0].id in ids then [] else [items[0]]) + Without(items[1..], ids)
  {
  }

  lemma AppendAssoc<T>(a: seq<T>, b: seq<T>, c: seq<T>)
    ensures (a + b) + c == a + (b + c)
  {
  }

  /** An id occurs in `Ids(items)` exactly when some item carries it. */
  lemma {:induction false} InIds(items: seq<Icon>, id: Option<string>)
    ensures id in Ids(items) <==> exists x :: x in items && x.id == id
  {
    if items != [] {
      InIds(items[1..], id);
      assert items == [items[0]] + items[1..];
    }
  }
}
