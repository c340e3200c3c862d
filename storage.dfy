/** The `cards` object store of the IndexedDB database: records keyed by
    their `id`, read and written one call at a time, and the JSON import
    and export built on it. */
module Storage {
  import opened Cards
  import opened Text

  /** The contents of the object store. */
  type Records = map<string, Card>

  /** The store's key path is `id`: each record sits under its own id. */
  predicate Keyed(m: Records) {
    forall k :: k in m ==> m[k].id == k
  }

  /** `store.get(id)`: the record or `undefined`. */
  function Lookup(m: Records, id: string): Option<Card> {
    if id in m then Some(m[id]) else None
  }

  /** `store.put(card)`: insert, or replace the record with the same id. */
  function Put(m: Records, c: Card): (r: Records)
    ensures Lookup(r, c.id) == Some(c)
    ensures forall k :: k != c.id ==> Lookup(r, k) == Lookup(m, k)
    ensures r.Keys == m.Keys + {c.id}
    ensures Keyed(m) ==> Keyed(r)
  {
    m[c.id := c]
  }

  /** A put of a stored id replaces; a put of a new id adds one record. */
  lemma PutCount(m: Records, c: Card)
    ensures c.id in m ==> Put(m, c).Keys == m.Keys && |Put(m, c)| == |m|
    ensures c.id !in m ==> |Put(m, c)| == |m| + 1
  {
    var r := Put(m, c);
    if c.id in m {
      assert r.Keys == m.Keys;
      assert |r.Keys| == |m.Keys|;
    } else {
      assert r.Keys == m.Keys + {c.id};
      assert |r.Keys| == |m.Keys| + 1;
    }
  }

  /** `store.delete(id)`: drop the key if present; an absent key is no error. */
  function Remove(m: Records, id: string): (r: Records)
    ensures Lookup(r, id) == None
    ensures forall k :: k != id ==> Lookup(r, k) == Lookup(m, k)
    ensures r.Keys == m.Keys - {id}
    ensures id !in m ==> r == m
    ensures Keyed(m) ==> Keyed(r)
  {
    m - {id}
  }

  /** The puts of `cs`, issued first to last. */
  function PutAll(m: Records, cs: seq<Card>): Records {
    if cs == [] then m else Put(PutAll(m, cs[..|cs| - 1]), cs[|cs| - 1])
  }

  /** The ids carried by the records of a list. */
  function IdsOf(cs: seq<Card>): set<string> {
    set i | 0 <= i < |cs| :: cs[i].id
  }

  /** The ids of a list, in list order. */
  function IdList(cs: seq<Card>): seq<string> {
    seq(|cs|, i requires 0 <= i < |cs| => cs[i].id)
  }

  /** The position of the last record of `cs` carrying `id`, or -1. */
  function LastIndexOfId(cs: seq<Card>, id: string): (i: int)
    ensures -1 <= i < |cs|
    ensures 0 <= i ==> cs[i].id == id
    ensures forall j :: i < j < |cs| ==> cs[j].id != id
  {
    if cs == [] then -1
    else if cs[|cs| - 1].id == id then |cs| - 1
    else LastIndexOfId(cs[..|cs| - 1], id)
  }

  /** Putting a list merges it into the store, key by key: a listed id
      ends up holding the last listed record with that id, and an unlisted
      id keeps what it held. */
  lemma {:induction false} PutAllAt(m: Records, cs: seq<Card>, k: string)
    ensures Lookup(PutAll(m, cs), k)
      == if 0 <= LastIndexOfId(cs, k) then Some(cs[LastIndexOfId(cs, k)]) else Lookup(m, k)
  {
    if cs != [] {
      PutAllAt(m, cs[..|cs| - 1], k);
    }
  }

  /** The key set after the puts is the old one plus the listed ids; in
      particular it never shrinks. */
  lemma {:induction false} PutAllKeys(m: Records, cs: seq<Card>)
    ensures PutAll(m, cs).Keys == m.Keys + IdsOf(cs)
  {
    if cs != [] {
      PutAllKeys(m, cs[..|cs| - 1]);
      PutAllKeysStep(m, cs);
    }
  }

  lemma PutAllKeysStep(m: Records, cs: seq<Card>)
    requires cs != []
    requires PutAll(m, cs[..|cs| - 1]).Keys == m.Keys + IdsOf(cs[..|cs| - 1])
    ensures PutAll(m, cs).Keys == m.Keys + IdsOf(cs)
  {
    var init, last := cs[..|cs| - 1], cs[|cs| - 1];
    IdsOfSnoc(cs);
    calc {
      PutAll(m, cs).Keys;
      Put(PutAll(m, init), last).Keys;
      PutAll(m, init).Keys + {last.id};
      m.Keys + IdsOf(init) + {last.id};
      m.Keys + IdsOf(cs);
    }
  }

  lemma IdsOfSnoc(cs: seq<Card>)
    requires cs != []
    ensures IdsOf(cs) == IdsOf(cs[..|cs| - 1]) + {cs[|cs| - 1].id}
  {
    var init := cs[..|cs| - 1];
    forall x | x in IdsOf(cs) ensures x in IdsOf(init) + {cs[|cs| - 1].id} {
      var i :| 0 <= i < |cs| && cs[i].id == x;
      if i < |cs| - 1 { assert init[i] == cs[i]; }
    }
    forall x | x in IdsOf(init) ensures x in IdsOf(cs) {
      var i :| 0 <= i < |init| && init[i].id == x;
      assert cs[i] == init[i];
    }
  }

  /** The store stays keyed by id whatever list it is given. */
  lemma {:induction false} PutAllKeyed(m: Records, cs: seq<Card>)
    requires Keyed(m)
    ensures Keyed(PutAll(m, cs))
  {
    if cs != [] {
      PutAllKeyed(m, cs[..|cs| - 1]);
    }
  }

  /** `xs` lists records of `m`, and every key of `m` is among them. */
  predicate Enumerates(xs: seq<Card>, m: Records) {
    && (forall i :: 0 <= i < |xs| ==> Lookup(m, xs[i].id) == Some(xs[i]))
    && m.Keys <= IdsOf(xs)
  }

  lemma ListedIdsHaveLastIndex(xs: seq<Card>, k: string)
    requires k in IdsOf(xs)
    ensures 0 <= LastIndexOfId(xs, k)
  {
    var i :| 0 <= i < |xs| && xs[i].id == k;
  }

  /** A listed record lands under its key whatever the store held before. */
  lemma ListedKeyRestored(m0: Records, m: Records, xs: seq<Card>, k: string)
    requires Enumerates(xs, m) && k in m
    ensures Lookup(PutAll(m0, xs), k) == Lookup(m, k)
  {
    PutAllAt(m0, xs, k);
    ListedIdsHaveLastIndex(xs, k);
    var i := LastIndexOfId(xs, k);
    assert Lookup(m, xs[i].id) == Some(xs[i]);
  }

  /** Every id of an enumeration is a key of the store. */
  lemma ListedIdsAreKeys(xs: seq<Card>, m: Records)
    requires Enumerates(xs, m)
    ensures IdsOf(xs) <= m.Keys
  {
    forall k | k in IdsOf(xs) ensures k in m {
      var i :| 0 <= i < |xs| && xs[i].id == k;
      assert Lookup(m, xs[i].id) == Some(xs[i]);
    }
  }

  /** Putting an enumeration of `m` into a store holding at most the keys of
      `m` yields exactly `m`. */
  lemma PutEnumeration(m0: Records, m: Records, xs: seq<Card>)
    requires Enumerates(xs, m) && m0.Keys <= m.Keys
    ensures PutAll(m0, xs) == m
  {
    PutAllKeys(m0, xs);
    ListedIdsAreKeys(xs, m);
    var r := PutAll(m0, xs);
    assert r.Keys == m.Keys;
    forall k | k in m ensures r[k] == m[k] {
      ListedKeyRestored(m0, m, xs, k);
    }
  }

  /** Importing what was exported, into the same store, changes nothing. */
  lemma ExportImportIsNoop(m: Records, xs: seq<Card>)
    requires Enumerates(xs, m)
    ensures PutAll(m, xs) == m
  {
    PutEnumeration(m, m, xs);
  }

  /** Importing what was exported into an empty store reproduces the store. */
  lemma ExportImportRestores(m: Records, xs: seq<Card>)
    requires Enumerates(xs, m)
    ensures PutAll(map[], xs) == m
  {
    PutEnumeration(map[], m, xs);
  }

  /** The records under ascending keys, in key order, enumerate the store
      in strictly ascending id order. */
  lemma SortedListing(m: Records, keys: seq<string>, all: seq<Card>)
    requires Keyed(m)
    requires StrictlyAscending(keys) && (forall x :: x in keys <==> x in m)
    requires |all| == |keys| && forall j :: 0 <= j < |all| ==> all[j] == m[keys[j]]
    ensures Enumerates(all, m)
    ensures StrictlyAscending(IdList(all))
    ensures forall i, j :: 0 <= i < j < |all| ==> all[i].id != all[j].id
  {
    assert IdList(all) == keys;
    AscendingDistinct(keys);
    forall k | k in m ensures k in IdsOf(all) {
      var j :| 0 <= j < |keys| && keys[j] == k;
      assert all[j].id == k;
    }
  }

  /** What `JSON.parse` makes of the text given to `importCards`: a syntax
      error, a value that is not an array, or an array of card records. */
  datatype ImportText = Malformed | NonArray | CardArray(cards: seq<Card>)

  /** The object store; `records` is its content, changed in place by each
      put and delete. */
  class CardStore {
    var records: Records

    ghost predicate Valid()
      reads this
    {
      Keyed(records)
    }

    /** A freshly created, empty store. */
    constructor ()
      ensures Valid() && records == map[]
    {
      records := map[];
    }

    /** `getCards`: every stored record exactly once, in ascending key
        order, as `getAll` returns them. */
    method GetCards() returns (all: seq<Card>)
      requires Valid()
      ensures Enumerates(all, records)
      ensures StrictlyAscending(IdList(all))
      ensures forall i, j :: 0 <= i < j < |all| ==> all[i].id != all[j].id
      ensures |all| == |records|
    {
      var keys := SortAscending(records.Keys);
      all := [];
      var i := 0;
      while i < |keys|
        invariant 0 <= i <= |keys|
        invariant |all| == i
        invariant forall j :: 0 <= j < i ==> all[j] == records[keys[j]]
      {
        all := all + [records[keys[i]]];
        i := i + 1;
      }
      SortedListing(records, keys, all);
    }

    /** `getCardById`: a point lookup; an absent id gives `undefined`. */
    method GetCardById(id: string) returns (r: Option<Card>)
      requires Valid()
      ensures r.Some? <==> id in records
      ensures r.Some? ==> r.value == records[id] && r.value.id == id
    {
      if id in records {
        r := Some(records[id]);
      } else {
        r := None;
      }
    }

    /** `saveCard`: insert or replace under the card's id. */
    method SaveCard(c: Card)
      requires Valid()
      modifies this
      ensures Valid()
      ensures records == Put(old(records), c)
    {
      records := records[c.id := c];
    }

    /** `deleteCard`: remove one key; removing an absent key succeeds too. */
    method DeleteCard(id: string)
      requires Valid()
      modifies this
      ensures Valid()
      ensures records == Remove(old(records), id)
    {
      records := records - {id};
    }

    /** `importCards`: fails and touches nothing unless the text parses to
        an array; otherwise puts each element in order (a merge, not a
        replacement of the whole store) and reports success. */
    method ImportCards(text: ImportText) returns (ok: bool)
      requires Valid()
      modifies this
      ensures Valid()
      ensures ok <==> text.CardArray?
      ensures records == if ok then PutAll(old(records), text.cards) else old(records)
    {
      match text {
        case CardArray(data) =>
          var i := 0;
          while i < |data|
            invariant 0 <= i <= |data|
            invariant records == PutAll(old(records), data[..i])
            invariant Keyed(records)
          {
            assert data[..i + 1][..i] == data[..i];
            records := records[data[i].id := data[i]];
            i := i + 1;
          }
          assert data[..|data|] == data;
          ok := true;
        case _ =>
          ok := false;
      }
    }

    /** `exportCards`: the full list, serialised; modelled by what parsing
        the text gives back. */
    method ExportCards() returns (text: ImportText)
      requires Valid()
      ensures text.CardArray?
      ensures Enumerates(text.cards, records)
      ensures StrictlyAscending(IdList(text.cards))
    {
      var all := GetCards();
      text := CardArray(all);
    }
  }
}
