/** The global category registry: the `ticketCategories` object of the
    shared `config.json`, which `add-global-category` and
    `remove-global-category` change in place and `list-global-categories`
    reads (bot-owner.js:79-119, 149-154). */
module Registry {
  import opened Lists
  import CategoryId

  /** A category definition; `name` is the source's `label` property (`label` is a Dafny keyword). */
  datatype Category = Category(name: string, emoji: string, description: string)

  datatype Error = DuplicateCategory | CategoryNotFound

  datatype Result<T> = Ok(value: T) | Err(error: Error)

  /** The keys of the registry object in enumeration order: each key once,
      exactly the keys of the map. */
  ghost predicate Indexed(entries: map<string, Category>, order: seq<string>)
  {
    && Distinct(order)
    && (forall k :: k in entries <==> k in order)
  }

  /** One listed category: the emoji, label and id and its description. */
  datatype Row = Row(id: string, category: Category)

  /** What `list-global-categories` shows: the empty-state message, or one
      row per category. */
  datatype Listing = NoCategories | Entries(rows: seq<Row>)

  function Rows(entries: map<string, Category>, order: seq<string>): (rows: seq<Row>)
    requires forall k :: k in order ==> k in entries
    ensures |rows| == |order|
    ensures forall i :: 0 <= i < |order| ==> rows[i] == Row(order[i], entries[order[i]])
  {
    if order == [] then [] else [Row(order[0], entries[order[0]])] + Rows(entries, order[1..])
  }

  /** bot-owner.js:149-154. The empty-state message is shown exactly when
      the registry has no keys. */
  function ListingOf(entries: map<string, Category>, order: seq<string>): (l: Listing)
    requires Indexed(entries, order)
    ensures l.NoCategories? <==> entries == map[]
  {
    if |order| == 0 then
      assert entries.Keys == {};
      NoCategories
    else
      assert order[0] in entries;
      Entries(Rows(entries, order))
  }

  function Listed(l: Listing): seq<Row>
  {
    if l.Entries? then l.rows else []
  }

  /** The listing shows exactly the registry's entries: a row appears if and
      only if its id is a key mapped to its category; rows follow the key
      order and no id is listed twice. */
  lemma ListingMatchesRegistry(entries: map<string, Category>, order: seq<string>)
    requires Indexed(entries, order)
    ensures forall r: Row :: r in Listed(ListingOf(entries, order)) <==> r.id in entries && r.category == entries[r.id]
    ensures forall i, j :: 0 <= i < j < |Listed(ListingOf(entries, order))| ==>
              Listed(ListingOf(entries, order))[i].id != Listed(ListingOf(entries, order))[j].id
  {
    var rows := Listed(ListingOf(entries, order));
    assert rows == Rows(entries, order);
    forall r: Row | r.id in entries && r.category == entries[r.id] ensures r in rows {
      var i :| 0 <= i < |order| && order[i] == r.id;
      assert rows[i] == r;
    }
  }

  /** Insertion keeps the key order well formed. */
  lemma AddKeepsIndexed(entries: map<string, Category>, order: seq<string>, id: string, c: Category)
    requires Indexed(entries, order) && id !in entries
    ensures Indexed(entries[id := c], order + [id])
  {
    var o := order + [id];
    forall i, j | 0 <= i < j < |o| ensures o[i] != o[j] {
      if j == |order| {
        assert o[i] in order;
      }
    }
  }

  /** A new category is listed last, after the earlier rows unchanged. */
  lemma AddedListedLast(entries: map<string, Category>, order: seq<string>, id: string, c: Category)
    requires Indexed(entries, order) && id !in entries
    ensures Indexed(entries[id := c], order + [id])
    ensures Listed(ListingOf(entries[id := c], order + [id])) == Listed(ListingOf(entries, order)) + [Row(id, c)]
  {
    AddKeepsIndexed(entries, order, id, c);
    var before, after := Rows(entries, order), Rows(entries[id := c], order + [id]);
    assert forall i :: 0 <= i < |order| ==> order[i] != id;
    assert after == before + [Row(id, c)];
  }

  /** Deletion keeps the key order well formed. */
  lemma RemoveKeepsIndexed(entries: map<string, Category>, order: seq<string>, id: string)
    requires Indexed(entries, order)
    ensures Indexed(entries - {id}, Without(order, id))
  {
    WithoutDistinct(order, id);
    forall k ensures k in entries - {id} <==> k in Without(order, id) {
      WithoutMembership(order, id, k);
    }
  }

  /** After a removal the id is no longer listed, and every other category
      still is, with its definition. */
  lemma RemovedNotListed(entries: map<string, Category>, order: seq<string>, id: string)
    requires Indexed(entries, order)
    ensures Indexed(entries - {id}, Without(order, id))
    ensures forall r: Row :: r in Listed(ListingOf(entries - {id}, Without(order, id))) ==> r.id != id
    ensures forall k :: k in entries && k != id ==> Row(k, entries[k]) in Listed(ListingOf(entries - {id}, Without(order, id)))
  {
    RemoveKeepsIndexed(entries, order, id);
    ListingMatchesRegistry(entries - {id}, Without(order, id));
  }

  /** The registry object, changed in place by the handler, and the number
      of times it has been written back to `config.json`. */
  class CategoryRegistry {
    var entries: map<string, Category>
    var order: seq<string>
    ghost var writes: nat

    ghost predicate Valid()
      reads this
    {
      Indexed(entries, order)
    }

    /** The registry as loaded from `config.json`. */
    constructor (entries0: map<string, Category>, order0: seq<string>)
      requires Indexed(entries0, order0)
      ensures Valid()
      ensures entries == entries0 && order == order0 && writes == 0
    {
      entries, order, writes := entries0, order0, 0;
    }

    /** An own key of the registry object (the guard of bot-owner.js:79 and
        :108 with the inherited properties left out; see `FoundAsWritten`). */
    predicate Has(id: string)
      reads this
      ensures Valid() ==> (Has(id) <==> id in order)
    {
      id in entries
    }

    /** bot-owner.js:79-93: refuse an existing id, otherwise store the
        category under it and write the file. */
    method Add(id: string, category: Category) returns (r: Result<Category>)
      requires Valid()
      modifies this
      ensures Valid()
      ensures r.Err? <==> id in old(entries)
      ensures r.Err? ==> r.error == DuplicateCategory && unchanged(this)
      ensures r.Ok? ==> r.value == category && entries == old(entries)[id := category]
                        && order == old(order) + [id] && writes == old(writes) + 1
    {
      if Has(id) {
        return Err(DuplicateCategory);
      }
      AddKeepsIndexed(entries, order, id, category);
      entries := entries[id := category];
      order := order + [id];
      writes := writes + 1;
      r := Ok(category);
    }

    /** bot-owner.js:108-119: refuse a missing id, otherwise delete it, write
        the file and hand back the deleted definition. */
    method Remove(id: string) returns (r: Result<Category>)
      requires Valid()
      modifies this
      ensures Valid()
      ensures r.Err? <==> id !in old(entries)
      ensures r.Err? ==> r.error == CategoryNotFound && unchanged(this)
      ensures r.Ok? ==> r.value == old(entries)[id] && entries == old(entries) - {id}
                        && order == Without(old(order), id) && writes == old(writes) + 1
    {
      if !Has(id) {
        return Err(CategoryNotFound);
      }
      var category := entries[id];
      RemoveKeepsIndexed(entries, order, id);
      entries := entries - {id};
      order := Without(order, id);
      writes := writes + 1;
      r := Ok(category);
    }
  }

  /** The properties every object made by `JSON.parse` inherits from
      `Object.prototype` (section 20.1.3 of ECMA-262 and its Annex B). */
  const InheritedKeys: set<string> := {
    "constructor", "hasOwnProperty", "isPrototypeOf", "propertyIsEnumerable",
    "toLocaleString", "toString", "valueOf", "__proto__",
    "__defineGetter__", "__defineSetter__", "__lookupGetter__", "__lookupSetter__"
  }

  /** The guard of bot-owner.js:79 and :108 as written: `config.ticketCategories[id]`
      is truthy for an own key (a category object) and for every inherited
      property (a function or `Object.prototype`). */
  predicate FoundAsWritten(entries: map<string, Category>, id: string)
    ensures FoundAsWritten(entries, id) && id !in entries && CategoryId.IsId(id) ==>
              id == "constructor" || id == "__proto__"
  {
    InheritedIds();
    id in entries || id in InheritedKeys
  }

  /** Of the inherited properties, only `constructor` and `__proto__` are
      spelled as normalised ids. */
  lemma InheritedIds()
    ensures forall k :: k in InheritedKeys && CategoryId.IsId(k) ==> k == "constructor" || k == "__proto__"
  {
    NotId("hasOwnProperty", 3);
    NotId("isPrototypeOf", 2);
    NotId("propertyIsEnumerable", 8);
    NotId("toLocaleString", 2);
    NotId("toString", 2);
    NotId("valueOf", 5);
    NotId("__defineGetter__", 8);
    NotId("__defineSetter__", 8);
    NotId("__lookupGetter__", 8);
    NotId("__lookupSetter__", 8);
  }

  /** A string with an uppercase letter at `i` is not an id. */
  lemma NotId(s: string, i: nat)
    requires i < |s| && 'A' <= s[i] <= 'Z'
    ensures !CategoryId.IsId(s)
  {
    assert !CategoryId.IsIdChar(s[i]);
  }

  /** As written, the guard reports a category that is not in the registry:
      `add-global-category` with id `constructor` is refused as a duplicate
      of nothing, and `remove-global-category` with id `toString` passes the
      not-found check, deletes nothing and still runs the cascade. */
  lemma InheritedKeysFoundAsWritten(entries: map<string, Category>)
    requires "constructor" !in entries && "toString" !in entries
    ensures CategoryId.Normalize("constructor") == "constructor"
    ensures FoundAsWritten(entries, "constructor") && !("constructor" in entries)
    ensures FoundAsWritten(entries, "toString") && !("toString" in entries)
  {
    ConstructorIsId();
    CategoryId.NormalizeFixes("constructor");
  }

  lemma ConstructorIsId()
    ensures CategoryId.IsId("constructor")
  {
  }

}
