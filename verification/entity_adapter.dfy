/** Redux Toolkit's `createEntityAdapter` state `{ ids, entities }` and the
    operations the slices call on it (`addOne`, `addMany`, `setAll`,
    `upsertOne`, `removeOne`, `removeMany`, `selectById`). Entities are keyed by
    the string their `id` field holds; `idOf` reads that field. */
module EntityAdapter {
  import opened Wrappers
  import opened Seqs

  type Id = string

  datatype EntityState<T> = EntityState(ids: seq<Id>, entities: map<Id, T>)

  /** `adapter.getInitialState()`. */
  function Empty<T>(): EntityState<T> {
    EntityState([], map[])
  }

  /** The adapter's own consistency: `ids` lists every key of `entities`
      exactly once, and each entity sits under its own id. */
  predicate Valid<T>(s: EntityState<T>, idOf: T -> Id) {
    && NoDup(s.ids)
    && (forall i | 0 <= i < |s.ids| :: s.ids[i] in s.entities)
    && (forall k | k in s.entities :: k in s.ids && idOf(s.entities[k]) == k)
  }

  /** `r` is `s` after `addOne(e)`: the id of `e` becomes a key and nothing
      stored changes; a new id stores `e` and is appended to `ids`, a taken
      id leaves the state as it was. */
  ghost predicate AddedOne<T>(s: EntityState<T>, r: EntityState<T>, e: T, idOf: T -> Id) {
    && r.entities.Keys == s.entities.Keys + {idOf(e)}
    && (forall k | k in s.entities :: r.entities[k] == s.entities[k])
    && (idOf(e) !in s.entities ==> r.entities[idOf(e)] == e && r.ids == s.ids + [idOf(e)])
    && (idOf(e) in s.entities ==> r == s)
  }

  /** `r` is `s` after `upsertOne(e)`: `e` is stored under its id, replacing
      what was there; the other entities stay; a new id is appended to
      `ids`, a known one leaves `ids` alone. */
  ghost predicate UpsertedOne<T>(s: EntityState<T>, r: EntityState<T>, e: T, idOf: T -> Id) {
    && r.entities.Keys == s.entities.Keys + {idOf(e)}
    && r.entities[idOf(e)] == e
    && (forall k | k in s.entities && k != idOf(e) :: r.entities[k] == s.entities[k])
    && (idOf(e) in s.entities ==> r.ids == s.ids)
    && (idOf(e) !in s.entities ==> r.ids == s.ids + [idOf(e)])
  }

  /** `r` is `s` after `removeOne(key)`: the key is gone and the other
      entities stay; a missing key changes nothing, and otherwise `ids` keeps
      the ids that are still keys, which in a consistent state is `ids`
      without `key`. */
  ghost predicate RemovedOne<T>(s: EntityState<T>, r: EntityState<T>, key: Id, idOf: T -> Id) {
    && r.entities.Keys == s.entities.Keys - {key}
    && (forall k | k in r.entities :: r.entities[k] == s.entities[k])
    && (key !in s.entities ==> r == s)
    && (key in s.entities ==> r.ids == KeepKeys(s.ids, r.entities.Keys))
    && (Valid(s, idOf) ==> r.ids == Without(s.ids, {key}))
  }

  /** `r` is `s` after removing every entity that `gone` picks out: nothing
      is added or changed, and in a consistent state exactly the picked
      entities are gone and `ids` keeps the others in their order. */
  ghost predicate RemovedWhere<T>(s: EntityState<T>, r: EntityState<T>, gone: T -> bool, idOf: T -> Id) {
    && (forall k | k in r.entities :: k in s.entities && r.entities[k] == s.entities[k])
    && (Valid(s, idOf) ==> Valid(r, idOf))
    && (Valid(s, idOf) ==> forall k | k in s.entities :: k in r.entities <==> !gone(s.entities[k]))
    && (Valid(s, idOf) ==> r.ids == KeepKeys(s.ids, r.entities.Keys))
  }

  /** `addOne`: an entity whose id is already present is ignored; otherwise
      it is stored and its id appended to `ids`. */
  function AddOne<T>(s: EntityState<T>, e: T, idOf: T -> Id): (r: EntityState<T>)
    ensures r.entities.Keys == s.entities.Keys + {idOf(e)}
    ensures forall k | k in s.entities :: r.entities[k] == s.entities[k]
    ensures idOf(e) !in s.entities ==> r.entities[idOf(e)] == e && r.ids == s.ids + [idOf(e)]
    ensures idOf(e) in s.entities ==> r == s
    ensures Valid(s, idOf) ==> Valid(r, idOf)
  {
    var k := idOf(e);
    if k in s.entities then s
    else
      var r := EntityState(s.ids + [k], s.entities[k := e]);
      assert Valid(s, idOf) ==> NoDup(r.ids) by {
        if Valid(s, idOf) {
          assert k !in s.ids;
        }
      }
      r
  }

  /** `addMany`: the entities added one after another, so the first of several
      entities with the same id is the one kept. */
  function AddMany<T>(s: EntityState<T>, es: seq<T>, idOf: T -> Id): (r: EntityState<T>)
    ensures r.entities.Keys == s.entities.Keys + (set i | 0 <= i < |es| :: idOf(es[i]))
    ensures forall k | k in s.entities :: r.entities[k] == s.entities[k]
    ensures Valid(s, idOf) ==> Valid(r, idOf)
  {
    if |es| == 0 then s
    else
      var init := es[..|es| - 1];
      var r := AddOne(AddMany(s, init, idOf), es[|es| - 1], idOf);
      assert (set i | 0 <= i < |es| :: idOf(es[i]))
          == (set i | 0 <= i < |init| :: idOf(init[i])) + {idOf(es[|es| - 1])} by {
        forall i | 0 <= i < |init|
          ensures idOf(es[i]) in (set i | 0 <= i < |init| :: idOf(init[i]))
        {
          assert init[i] == es[i];
        }
      }
      r
  }

  /** `setAll`: everything replaced by the given entities. */
  function SetAll<T>(es: seq<T>, idOf: T -> Id): (r: EntityState<T>)
    ensures Valid(r, idOf)
    ensures r.entities.Keys == set i | 0 <= i < |es| :: idOf(es[i])
  {
    AddMany(Empty(), es, idOf)
  }

  /** `setAll` lists the ids in first-occurrence order, that is, the payload's
      ids with repeats dropped. */
  lemma {:induction false} AddManyIds<T>(es: seq<T>, idOf: T -> Id)
    ensures AddMany(Empty(), es, idOf).ids == Dedup(Map(es, idOf))
  {
    if |es| > 0 {
      var init := es[..|es| - 1];
      AddManyIds(init, idOf);
      assert Map(es, idOf)[..|es| - 1] == Map(init, idOf);
      var prev := AddMany(Empty(), init, idOf);
      assert idOf(es[|es| - 1]) in prev.entities <==> idOf(es[|es| - 1]) in prev.ids;
    }
  }

  /** With duplicate-free ids, `setAll` stores every entity under its id and
      keeps the payload order. */
  lemma SetAllDistinct<T>(es: seq<T>, idOf: T -> Id)
    requires NoDup(Map(es, idOf))
    ensures SetAll(es, idOf).ids == Map(es, idOf)
    ensures forall i | 0 <= i < |es| :: SetAll(es, idOf).entities[idOf(es[i])] == es[i]
  {
    AddManyIds(es, idOf);
    DedupOfNoDup(Map(es, idOf));
    forall i | 0 <= i < |es| ensures SetAll(es, idOf).entities[idOf(es[i])] == es[i] {
      AddManyDistinct(es, idOf, i);
    }
  }

  lemma {:induction false} AddManyDistinct<T>(es: seq<T>, idOf: T -> Id, i: nat)
    requires NoDup(Map(es, idOf)) && i < |es|
    ensures AddMany(Empty(), es, idOf).entities[idOf(es[i])] == es[i]
  {
    var init := es[..|es| - 1];
    assert Map(init, idOf) == Map(es, idOf)[..|es| - 1];
    assert NoDup(Map(init, idOf)) by {
      forall a, b | 0 <= a < b < |init| ensures Map(init, idOf)[a] != Map(init, idOf)[b] {
        assert Map(es, idOf)[a] != Map(es, idOf)[b];
      }
    }
    var prev := AddMany(Empty(), init, idOf);
    if i < |es| - 1 {
      AddManyDistinct(init, idOf, i);
    } else {
      assert idOf(es[i]) !in prev.entities;
    }
  }

  /** `upsertOne` with a complete entity: stored under its id, replacing any
      previous entity with that id; a new id is appended to `ids`. */
  function UpsertOne<T>(s: EntityState<T>, e: T, idOf: T -> Id): (r: EntityState<T>)
    ensures r.entities.Keys == s.entities.Keys + {idOf(e)}
    ensures r.entities[idOf(e)] == e
    ensures forall k | k in s.entities && k != idOf(e) :: r.entities[k] == s.entities[k]
    ensures idOf(e) in s.entities ==> r.ids == s.ids
    ensures idOf(e) !in s.entities ==> r.ids == s.ids + [idOf(e)]
    ensures Valid(s, idOf) ==> Valid(r, idOf)
  {
    var k := idOf(e);
    if k in s.entities then EntityState(s.ids, s.entities[k := e])
    else AddOne(s, e, idOf)
  }

  /** `removeMany`: every listed key is deleted, and when one was present
      `ids` is filtered down to the keys that remain. */
  function RemoveMany<T>(s: EntityState<T>, keys: set<Id>, idOf: T -> Id): (r: EntityState<T>)
    ensures r.entities.Keys == s.entities.Keys - keys
    ensures forall k | k in r.entities :: r.entities[k] == s.entities[k]
    ensures Valid(s, idOf) ==> Valid(r, idOf) && r.ids == Without(s.ids, keys)
  {
    if forall k | k in keys :: k !in s.entities then s
    else
      var remaining := s.entities - keys;
      var r := EntityState(KeepKeys(s.ids, remaining.Keys), remaining);
      assert Valid(s, idOf) ==> Valid(r, idOf) && r.ids == Without(s.ids, keys) by {
        if Valid(s, idOf) {
          KeepKeysWithout(s.ids, remaining.Keys, keys);
          forall i | 0 <= i < |r.ids| ensures r.ids[i] in remaining {
            assert r.ids[i] in r.ids;
          }
        }
      }
      r
  }

  /** `ids.filter(id => id in entities)`. */
  function KeepKeys(ids: seq<Id>, keys: set<Id>): (r: seq<Id>)
    ensures |r| <= |ids|
    ensures forall i | 0 <= i < |r| :: r[i] in keys && r[i] in ids
  {
    if |ids| == 0 then []
    else (if ids[0] in keys then [ids[0]] else []) + KeepKeys(ids[1..], keys)
  }

  /** Keeping the ids that are still keys is removing the deleted ones, when
      every id was a key before. */
  lemma {:induction false} KeepKeysWithout(ids: seq<Id>, remaining: set<Id>, keys: set<Id>)
    requires forall i | 0 <= i < |ids| :: ids[i] in remaining <==> ids[i] !in keys
    ensures KeepKeys(ids, remaining) == Without(ids, keys)
  {
    if |ids| > 0 {
      KeepKeysWithout(ids[1..], remaining, keys);
    }
  }

  /** `removeOne`. */
  function RemoveOne<T>(s: EntityState<T>, key: Id, idOf: T -> Id): (r: EntityState<T>)
    ensures r.entities.Keys == s.entities.Keys - {key}
    ensures forall k | k in r.entities :: r.entities[k] == s.entities[k]
    ensures Valid(s, idOf) ==> Valid(r, idOf) && r.ids == Without(s.ids, {key})
    ensures key !in s.entities ==> r == s
    ensures key in s.entities ==> r.ids == KeepKeys(s.ids, r.entities.Keys)
  {
    RemoveMany(s, {key}, idOf)
  }

  /** Removing a set of keys that, in a consistent state, are exactly the
      keys whose entities `gone` picks out removes those entities. */
  lemma RemoveManyWhere<T>(s: EntityState<T>, keys: set<Id>, gone: T -> bool, idOf: T -> Id)
    requires Valid(s, idOf) ==> forall k | k in s.entities :: k in keys <==> gone(s.entities[k])
    ensures RemovedWhere(s, RemoveMany(s, keys, idOf), gone, idOf)
  {
    var r := RemoveMany(s, keys, idOf);
    if Valid(s, idOf) {
      KeepKeysWithout(s.ids, r.entities.Keys, keys);
    }
  }

  /** `selectById`: the entity stored under `key`, if any. */
  function SelectById<T>(s: EntityState<T>, key: Id): (r: Option<T>)
    ensures r.Some? <==> key in s.entities
    ensures r.Some? ==> r.value == s.entities[key]
  {
    if key in s.entities then Some(s.entities[key]) else None
  }

  /** In a valid state, the entity selected by an id carries that id. */
  lemma SelectByIdCarriesId<T>(s: EntityState<T>, key: Id, idOf: T -> Id)
    requires Valid(s, idOf)
    ensures SelectById(s, key).Some? ==> idOf(SelectById(s, key).value) == key
    ensures SelectById(s, key).Some? <==> key in s.ids
  {
  }

  /** `ids.map(id => entities[id]).filter(Boolean)`: the entities the ids name,
      in order, with the ids that name nothing dropped. */
  function Resolve<T>(ids: seq<Id>, entities: map<Id, T>): (r: seq<T>)
    ensures |r| <= |ids|
    ensures |r| == |KeepKeys(ids, entities.Keys)|
    ensures forall i | 0 <= i < |r| :: r[i] == entities[KeepKeys(ids, entities.Keys)[i]]
  {
    if |ids| == 0 then []
    else (if ids[0] in entities then [entities[ids[0]]] else []) + Resolve(ids[1..], entities)
  }

  /** When every id resolves, nothing is dropped and the i-th result is the
      entity of the i-th id. */
  lemma {:induction false} ResolveAll<T>(ids: seq<Id>, entities: map<Id, T>)
    requires forall i | 0 <= i < |ids| :: ids[i] in entities
    ensures |Resolve(ids, entities)| == |ids|
    ensures forall i | 0 <= i < |ids| :: Resolve(ids, entities)[i] == entities[ids[i]]
  {
    if |ids| > 0 {
      ResolveAll(ids[1..], entities);
    }
  }
}
