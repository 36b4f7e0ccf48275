/**
 * `Repository<T extends Identifiable>`: a list of items kept in insertion
 * order whose ids are pairwise distinct. `getId` is the argument `idOf`; a
 * Java `null` item is `None`.
 */
module Repository {
  import opened Wrappers

  datatype Repo<T> = Repo(items: seq<T>)

  /** Ids are pairwise distinct. */
  predicate UniqueIds<T>(items: seq<T>, idOf: T -> string)
  {
    forall i, j | 0 <= i < j < |items| :: idOf(items[i]) != idOf(items[j])
  }

  /** The position of the first item with this id. */
  function IndexOf<T>(items: seq<T>, id: string, idOf: T -> string): (r: Option<nat>)
    ensures r.Some? ==> r.value < |items| && idOf(items[r.value]) == id
    ensures r.Some? ==> forall j | 0 <= j < r.value :: idOf(items[j]) != id
    ensures r.None? <==> forall j | 0 <= j < |items| :: idOf(items[j]) != id
  {
    if items == [] then None
    else if idOf(items[0]) == id then Some(0)
    else match IndexOf(items[1..], id, idOf)
      case None => None
      case Some(i) => Some(i + 1)
  }

  /** `findById`: the first item with the id. */
  function FindById<T>(repo: Repo<T>, id: string, idOf: T -> string): (r: Option<T>)
    ensures r.None? <==> forall j | 0 <= j < |repo.items| :: idOf(repo.items[j]) != id
    ensures r.Some? ==> exists j | 0 <= j < |repo.items| :: repo.items[j] == r.value && idOf(r.value) == id
                                                         && forall i | 0 <= i < j :: idOf(repo.items[i]) != id
  {
    match IndexOf(repo.items, id, idOf)
      case None => None
      case Some(i) => Some(repo.items[i])
  }

  /** `add`: refuses `null` and an id already present; otherwise appends. */
  function Add<T>(repo: Repo<T>, item: Option<T>, idOf: T -> string): (r: (Repo<T>, bool))
    ensures r.1 <==> item.Some? && forall j | 0 <= j < |repo.items| :: idOf(repo.items[j]) != idOf(item.value)
    ensures r.1 ==> r.0.items == repo.items + [item.value]
    ensures !r.1 ==> r.0 == repo
  {
    if item.None? then (repo, false)
    else if FindById(repo, idOf(item.value), idOf).Some? then (repo, false)
    else (Repo(repo.items + [item.value]), true)
  }

  /** `upsert`: replaces the first same-id item in place (true), or appends (false). */
  function Upsert<T>(repo: Repo<T>, item: Option<T>, idOf: T -> string): (r: (Repo<T>, bool))
    ensures item.None? ==> r == (repo, false)
    ensures item.Some? ==>
              match IndexOf(repo.items, idOf(item.value), idOf)
                case Some(i) => r.1 && r.0.items == repo.items[i := item.value]
                case None => !r.1 && r.0.items == repo.items + [item.value]
  {
    if item.None? then (repo, false)
    else match IndexOf(repo.items, idOf(item.value), idOf)
      case Some(i) => (Repo(repo.items[i := item.value]), true)
      case None => (Repo(repo.items + [item.value]), false)
  }

  /** `removeById`: removes and returns the first match, keeping the others in order. */
  function RemoveById<T>(repo: Repo<T>, id: string, idOf: T -> string): (r: (Repo<T>, Option<T>))
    ensures r.1 == FindById(repo, id, idOf)
    ensures r.1.None? ==> r.0 == repo
    ensures r.1.Some? ==> |r.0.items| == |repo.items| - 1
    ensures r.1.Some? ==> exists i | 0 <= i < |repo.items| ::
              idOf(repo.items[i]) == id && r.0.items == repo.items[..i] + repo.items[i + 1..]
  {
    match IndexOf(repo.items, id, idOf)
      case None => (repo, None)
      case Some(i) => (Repo(repo.items[..i] + repo.items[i + 1..]), Some(repo.items[i]))
  }

  /** `findAll`: the items satisfying the predicate, in stored order. */
  function FindAll<T(!new)>(items: seq<T>, p: T -> bool): (r: seq<T>)
    ensures |r| <= |items|
    ensures forall x :: x in r <==> x in items && p(x)
  {
    if items == [] then []
    else (if p(items[0]) then [items[0]] else []) + FindAll(items[1..], p)
  }

  /** Filtering distributes over concatenation, so stored order is kept. */
  lemma {:induction false} FindAllAppend<T(!new)>(a: seq<T>, b: seq<T>, p: T -> bool)
    ensures FindAll(a + b, p) == FindAll(a, p) + FindAll(b, p)
  {
    if a == [] {
      assert a + b == b;
    } else {
      assert (a + b)[0] == a[0];
      assert (a + b)[1..] == a[1..] + b;
      FindAllAppend(a[1..], b, p);
    }
  }

  function Size<T>(repo: Repo<T>): nat
  {
    |repo.items|
  }

  /** `clear`. */
  function Clear<T>(repo: Repo<T>): (r: Repo<T>)
    ensures Size(r) == 0
  {
    Repo([])
  }

  /** `add` keeps ids distinct. */
  lemma AddKeepsUnique<T>(repo: Repo<T>, item: Option<T>, idOf: T -> string)
    requires UniqueIds(repo.items, idOf)
    ensures UniqueIds(Add(repo, item, idOf).0.items, idOf)
  {
  }

  /** `upsert` keeps ids distinct: a replacement carries the id it replaces. */
  lemma UpsertKeepsUnique<T>(repo: Repo<T>, item: Option<T>, idOf: T -> string)
    requires UniqueIds(repo.items, idOf)
    ensures UniqueIds(Upsert(repo, item, idOf).0.items, idOf)
  {
  }

  /** `removeById` keeps ids distinct and removes the id completely. */
  lemma RemoveKeepsUnique<T>(repo: Repo<T>, id: string, idOf: T -> string)
    requires UniqueIds(repo.items, idOf)
    ensures UniqueIds(RemoveById(repo, id, idOf).0.items, idOf)
    ensures FindById(RemoveById(repo, id, idOf).0, id, idOf).None?
  {
    var r := RemoveById(repo, id, idOf).0;
    match IndexOf(repo.items, id, idOf)
    case None =>
    case Some(i) =>
      assert r.items == repo.items[..i] + repo.items[i + 1..];
      DropKeepsUnique(repo.items, i, idOf);
  }

  /** Dropping one item keeps ids distinct, and no remaining item has the dropped item's id. */
  lemma DropKeepsUnique<T>(s: seq<T>, i: nat, idOf: T -> string)
    requires i < |s| && UniqueIds(s, idOf)
    ensures UniqueIds(s[..i] + s[i + 1..], idOf)
    ensures forall x | x in s[..i] + s[i + 1..] :: idOf(x) != idOf(s[i])
  {
    var d := s[..i] + s[i + 1..];
    forall j | 0 <= j < |d|
      ensures j < i ==> d[j] == s[j]
      ensures j >= i ==> d[j] == s[j + 1]
    {
    }
  }

  /** After a successful `add`, `findById` finds the added item. */
  lemma AddThenFind<T>(repo: Repo<T>, item: T, idOf: T -> string)
    requires Add(repo, Some(item), idOf).1
    ensures FindById(Add(repo, Some(item), idOf).0, idOf(item), idOf) == Some(item)
  {
    var r := Add(repo, Some(item), idOf).0;
    assert r.items[|repo.items|] == item;
    assert IndexOf(r.items, idOf(item), idOf) == Some(|repo.items|);
  }
}
