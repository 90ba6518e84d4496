/** The key index of the key-value drive (kv_ftl.c): a table in which colliding keys are chained
    through free slots found by linear probing, so that chains of different slots run together.
    Keys are of one length, so that comparing keys is equality. */
module KvIndex {
  import opened Wrappers
  import opened IdLists

  /** `-1` as a slot number and as a memory offset. */
  const NONE: nat := 0xFFFF_FFFF
  const NOWHERE: nat := 0xFFFF_FFFF_FFFF_FFFF
  const SMALL_LENGTH: nat := 1024

  type Key = string

  /** `struct mapping_entry`. */
  datatype Entry = Entry(key: Key, memOffset: nat, length: nat, nextSlot: nat)

  /** What the index says of a stored key. */
  datatype Place = Place(memOffset: nat, length: nat)

  predicate Used(e: Entry) {
    e.memOffset != NOWHERE
  }

  function Blank(): Entry {
    Entry("", NOWHERE, 0, NONE)
  }

  function Home(hash: Key -> nat, n: nat, key: Key): (h: nat)
    requires n > 0
    ensures h < n
  {
    hash(key) % n
  }

  // ----- Links -----

  /** `stamp[s]` is the number of insertions before slot `s` was filled.  A link leads to a slot
      filled later, or to one emptied since. */
  ghost predicate SlotOk(table: seq<Entry>, stamp: seq<nat>, clock: nat, s: nat)
    requires s < |table| == |stamp|
  {
    var next := table[s].nextSlot;
    if Used(table[s]) then
      && stamp[s] < clock
      && (next == NONE || (next < |table| && (Used(table[next]) ==> stamp[s] < stamp[next])))
    else next == NONE
  }

  ghost predicate Linked(table: seq<Entry>, stamp: seq<nat>, clock: nat)
  {
    && 0 < |table| <= NONE && |stamp| == |table|
    && (forall s: nat :: s < |table| ==> SlotOk(table, stamp, clock, s))
    && (forall s, t :: 0 <= s < t < |table| && Used(table[s]) && Used(table[t]) ==> stamp[s] != stamp[t])
  }

  ghost function Ahead(table: seq<Entry>, stamp: seq<nat>, clock: nat, s: nat): nat
    requires Linked(table, stamp, clock) && s < |table|
  {
    assert SlotOk(table, stamp, clock, s);
    if Used(table[s]) then clock - stamp[s] else 0
  }

  /** The chain ends at `s`. */
  predicate Ends(table: seq<Entry>, s: nat)
    requires s < |table|
  {
    table[s].nextSlot >= |table| || !Used(table[table[s].nextSlot])
  }

  /** The slot at which a search for `key` from slot `s` stops with success. */
  ghost function Find(table: seq<Entry>, stamp: seq<nat>, clock: nat, s: nat, key: Key): (r: Option<nat>)
    requires Linked(table, stamp, clock) && s < |table|
    ensures r.Some? ==> r.value < |table| && Used(table[r.value]) && table[r.value].key == key
    decreases Ahead(table, stamp, clock, s)
  {
    assert SlotOk(table, stamp, clock, s);
    if !Used(table[s]) then None
    else if table[s].key == key then Some(s)
    else if table[s].nextSlot == NONE then None
    else Find(table, stamp, clock, table[s].nextSlot, key)
  }

  /** The search for `key` from slot `s` comes past the used slot `x`. */
  ghost predicate Passes(table: seq<Entry>, stamp: seq<nat>, clock: nat, s: nat, key: Key, x: nat)
    requires Linked(table, stamp, clock) && s < |table|
    decreases Ahead(table, stamp, clock, s)
  {
    assert SlotOk(table, stamp, clock, s);
    Used(table[s])
    && (s == x
        || (table[s].key != key && table[s].nextSlot != NONE && Passes(table, stamp, clock, table[s].nextSlot, key, x)))
  }

  /** The last used slot of the chain through `s`. */
  ghost function Tail(table: seq<Entry>, stamp: seq<nat>, clock: nat, s: nat): (t: nat)
    requires Linked(table, stamp, clock) && s < |table| && Used(table[s])
    ensures t < |table| && Used(table[t]) && Ends(table, t)
    decreases Ahead(table, stamp, clock, s)
  {
    assert SlotOk(table, stamp, clock, s);
    if Ends(table, s) then s else Tail(table, stamp, clock, table[s].nextSlot)
  }

  // ----- Inserting -----

  /** Slot `x` is filled with an entry for `key`, and linked from `t` unless it is the home slot. */
  ghost predicate Inserted(table: seq<Entry>, table': seq<Entry>, x: nat, e: Entry, from: Option<nat>)
  {
    && x < |table| && !Used(table[x]) && Used(e) && e.nextSlot == NONE
    && (from.Some? ==> from.value < |table| && Used(table[from.value])
                       && Ends(table, from.value))
    && table' == (match from
                  case None => table[x := e]
                  case Some(t) => table[x := e][t := table[t].(nextSlot := x)])
  }

  lemma InsertKeepsLinks(table: seq<Entry>, table': seq<Entry>, stamp: seq<nat>, clock: nat, x: nat, e: Entry,
                         from: Option<nat>)
    requires Linked(table, stamp, clock) && Inserted(table, table', x, e, from)
    ensures Linked(table', stamp[x := clock], clock + 1)
  {
    var stamp', clock' := stamp[x := clock], clock + 1;
    forall s: nat | s < |table| ensures SlotOk(table', stamp', clock', s) {
      assert SlotOk(table, stamp, clock, s) && SlotOk(table, stamp, clock, x);
    }
    forall s: nat | s < |table| && Used(table[s]) ensures stamp[s] < clock { assert SlotOk(table, stamp, clock, s); }
  }

  lemma SizeOf(table: seq<Entry>, stamp: seq<nat>, clock: nat)
    requires Linked(table, stamp, clock)
    ensures 0 < |stamp| == |table| <= NONE
  {
  }

  lemma LinkAt(table: seq<Entry>, stamp: seq<nat>, clock: nat, s: nat)
    requires Linked(table, stamp, clock) && s < |table|
    ensures |stamp| == |table| <= NONE
    ensures Used(table[s]) && table[s].nextSlot != NONE ==>
              table[s].nextSlot < |table| && Ahead(table, stamp, clock, table[s].nextSlot) < Ahead(table, stamp, clock, s)
    ensures !Used(table[s]) ==> table[s].nextSlot == NONE
  {
    assert SlotOk(table, stamp, clock, s);
  }

  /** The entry at `s` before and after. */
  lemma InsertedAt(table: seq<Entry>, table': seq<Entry>, x: nat, e: Entry, from: Option<nat>, s: nat)
    requires Inserted(table, table', x, e, from) && s < |table| <= NONE
    ensures |table'| == |table| && x < |table| && !Used(table[x]) && table'[x] == e && Used(e) && e.nextSlot == NONE
    ensures x != NONE
    ensures s != x ==> Used(table'[s]) == Used(table[s]) && table'[s].key == table[s].key
    ensures s != x && from != Some(s) ==> table'[s] == table[s]
    ensures from == Some(s) ==> s != x && Used(table[s]) && table'[s].nextSlot == x
    ensures from == Some(s) ==> Ends(table, s)
  {
  }

  /** Other keys are found where they were. */
  lemma {:induction false} InsertKeepsOthers(table: seq<Entry>, table': seq<Entry>, stamp: seq<nat>, clock: nat,
                                             x: nat, e: Entry,
                                             from: Option<nat>, s: nat, key: Key)
    requires Linked(table, stamp, clock) && Inserted(table, table', x, e, from) && s < |table| && key != e.key
    requires Linked(table', stamp[x := clock], clock + 1) && |table| <= NONE && |table'| == |table|
    ensures Find(table', stamp[x := clock], clock + 1, s, key) == Find(table, stamp, clock, s, key)
    decreases Ahead(table, stamp, clock, s)
  {
    hide Linked, Inserted, Ahead;
    LinkAt(table, stamp, clock, s);
    InsertedAt(table, table', x, e, from, s);
    if Used(table[s]) && table[s].key != key {
      if from == Some(s) {
        assert Find(table', stamp[x := clock], clock + 1, x, key) == None;
      } else if table[s].nextSlot != NONE {
        InsertKeepsOthers(table, table', stamp, clock, x, e, from, table[s].nextSlot, key);
      }
    }
  }

  /** The new key is found, being linked from the end of the chain of its home slot. */
  lemma {:induction false} InsertIsFound(table: seq<Entry>, table': seq<Entry>, stamp: seq<nat>, clock: nat, x: nat,
                                         e: Entry,
                                         from: Option<nat>, s: nat)
    requires Linked(table, stamp, clock) && Inserted(table, table', x, e, from) && s < |table|
    requires Linked(table', stamp[x := clock], clock + 1) && |table| <= NONE && |table'| == |table|
    requires Find(table, stamp, clock, s, e.key) == None
    requires if Used(table[s]) then from == Some(Tail(table, stamp, clock, s)) else s == x
    ensures Find(table', stamp[x := clock], clock + 1, s, e.key) == Some(x)
    decreases Ahead(table, stamp, clock, s)
  {
    hide Linked, Inserted, Ahead;
    LinkAt(table, stamp, clock, s);
    InsertedAt(table, table', x, e, from, s);
    if Used(table[s]) && !Ends(table, s) {
      InsertedAt(table, table', x, e, from, from.value);
      InsertIsFound(table, table', stamp, clock, x, e, from, table[s].nextSlot);
    } else if Used(table[s]) {
      assert Find(table', stamp[x := clock], clock + 1, x, e.key) == Some(x);
    }
  }

  // ----- Deleting -----

  lemma DeleteKeepsLinks(table: seq<Entry>, stamp: seq<nat>, clock: nat, x: nat)
    requires Linked(table, stamp, clock) && x < |table|
    ensures Linked(table[x := Blank()], stamp, clock)
  {
    var table' := table[x := Blank()];
    forall s: nat | s < |table| ensures SlotOk(table', stamp, clock, s) {
      assert SlotOk(table, stamp, clock, s);
    }
  }

  /** Deleting slot `x` loses exactly the keys whose search comes past it. */
  lemma {:induction false} DeleteLosesPassing(table: seq<Entry>, stamp: seq<nat>, clock: nat, x: nat, s: nat, key: Key)
    requires Linked(table, stamp, clock) && x < |table| && s < |table|
    requires Linked(table[x := Blank()], stamp, clock)
    ensures Find(table[x := Blank()], stamp, clock, s, key)
            == if Passes(table, stamp, clock, s, key, x) then None else Find(table, stamp, clock, s, key)
    decreases Ahead(table, stamp, clock, s)
  {
    LinkAt(table, stamp, clock, s);
    if s != x && Used(table[s]) && table[s].key != key && table[s].nextSlot != NONE {
      DeleteLosesPassing(table, stamp, clock, x, table[s].nextSlot, key);
    }
  }

  /** At the end of a chain that is only the key stored there. */
  lemma {:induction false} EndIsPassedByItsKey(table: seq<Entry>, stamp: seq<nat>, clock: nat, x: nat, s: nat, key: Key)
    requires Linked(table, stamp, clock) && x < |table| && s < |table| && Used(table[x]) && Ends(table, x)
    requires Passes(table, stamp, clock, s, key, x)
    ensures Find(table, stamp, clock, s, key) == if table[x].key == key then Some(x) else None
    decreases Ahead(table, stamp, clock, s)
  {
    LinkAt(table, stamp, clock, s);
    if s != x {
      EndIsPassedByItsKey(table, stamp, clock, x, table[s].nextSlot, key);
    } else if table[x].nextSlot != NONE {
      assert Find(table, stamp, clock, table[x].nextSlot, key) == None;
    }
  }

  // ----- The index as a map -----

  /** The slot of a key, searched from its home slot. */
  ghost function FindKey(table: seq<Entry>, stamp: seq<nat>, clock: nat, hash: Key -> nat, key: Key): Option<nat>
    requires Linked(table, stamp, clock)
  {
    Find(table, stamp, clock, Home(hash, |table|, key), key)
  }

  /** A lookup of `key` answers as the map `contents`, be the key stored or absent. */
  ghost predicate AgreesOn(table: seq<Entry>, stamp: seq<nat>, clock: nat, hash: Key -> nat, contents: map<Key,
                           Place>, key: Key)
    requires Linked(table, stamp, clock)
  {
    match FindKey(table, stamp, clock, hash, key)
    case None => key !in contents
    case Some(s) => s < |table| && key in contents && contents[key] == Place(table[s].memOffset, table[s].length)
  }

  ghost predicate Agrees(table: seq<Entry>, stamp: seq<nat>, clock: nat, hash: Key -> nat, contents: map<Key, Place>)
    requires Linked(table, stamp, clock)
  {
    forall key: Key :: AgreesOn(table, stamp, clock, hash, contents, key)
  }

  /** Where the new entry for an absent key goes. */
  ghost predicate InsertedForKey(table: seq<Entry>, table': seq<Entry>, stamp: seq<nat>, clock: nat, hash: Key -> nat,
                                 x: nat, e: Entry, from: Option<nat>)
    requires Linked(table, stamp, clock)
  {
    var h := Home(hash, |table|, e.key);
    && Inserted(table, table', x, e, from)
    && if Used(table[h]) then from == Some(Tail(table, stamp, clock, h)) else from == None && h == x
  }

  lemma InsertAgrees(table: seq<Entry>, table': seq<Entry>, stamp: seq<nat>, clock: nat, hash: Key -> nat, x: nat,
                     e: Entry,
                     from: Option<nat>, contents: map<Key, Place>)
    requires Linked(table, stamp, clock) && InsertedForKey(table, table', stamp, clock, hash, x, e, from)
    requires Agrees(table, stamp, clock, hash, contents) && e.key !in contents
    ensures Linked(table', stamp[x := clock], clock + 1)
    ensures Agrees(table', stamp[x := clock], clock + 1, hash, contents[e.key := Place(e.memOffset, e.length)])
  {
    hide Find, AgreesOn, Inserted;
    InsertKeepsLinks(table, table', stamp, clock, x, e, from);
    hide Linked;
    SizeOf(table, stamp, clock);
    InsertedAt(table, table', x, e, from, 0);
    var stamp', clock', contents' := stamp[x := clock], clock + 1, contents[e.key := Place(e.memOffset, e.length)];
    forall key: Key ensures AgreesOn(table', stamp', clock', hash, contents', key) {
      assert AgreesOn(table, stamp, clock, hash, contents, key);
      InsertAgreesOn(table, table', stamp, clock, hash, x, e, from, contents, key);
    }
  }

  lemma InsertAgreesOn(table: seq<Entry>, table': seq<Entry>, stamp: seq<nat>, clock: nat, hash: Key -> nat, x: nat,
                       e: Entry,
                       from: Option<nat>, contents: map<Key, Place>, key: Key)
    requires Linked(table, stamp, clock) && InsertedForKey(table, table', stamp, clock, hash, x, e, from)
    requires AgreesOn(table, stamp, clock, hash, contents, key) && e.key !in contents
    ensures Linked(table', stamp[x := clock], clock + 1)
    ensures AgreesOn(table', stamp[x := clock], clock + 1, hash, contents[e.key := Place(e.memOffset, e.length)], key)
  {
    hide Find, Linked, Inserted, Tail;
    InsertKeepsLinks(table, table', stamp, clock, x, e, from);
    SizeOf(table, stamp, clock);
    var h := Home(hash, |table|, key);
    InsertedAt(table, table', x, e, from, h);
    if key == e.key {
      InsertIsFound(table, table', stamp, clock, x, e, from, h);
    } else {
      InsertKeepsOthers(table, table', stamp, clock, x, e, from, h, key);
      var r := Find(table, stamp, clock, h, key);
      if r.Some? { InsertKeepsStored(table, table', x, e, from, r.value); }
    }
  }

  lemma InsertKeepsStored(table: seq<Entry>, table': seq<Entry>, x: nat, e: Entry, from: Option<nat>, s: nat)
    requires Inserted(table, table', x, e, from) && s < |table| && Used(table[s])
    ensures |table'| == |table| && Stored(table'[s]) == Stored(table[s])
  {
  }

  function Stored(e: Entry): (Key, Place) {
    (e.key, Place(e.memOffset, e.length))
  }

  /** A table with the same keys and links is searched the same way. */
  lemma {:induction false} SameKeysSameFind(table: seq<Entry>, table': seq<Entry>, stamp: seq<nat>, clock: nat,
                                            s: nat, key: Key)
    requires Linked(table, stamp, clock) && |table'| == |table| && s < |table|
    requires forall i :: 0 <= i < |table| ==>
               table'[i].key == table[i].key && table'[i].nextSlot == table[i].nextSlot && Used(table'[i]) == Used(table[i])
    ensures Linked(table', stamp, clock) && Find(table', stamp, clock, s, key) == Find(table, stamp, clock, s, key)
    decreases Ahead(table, stamp, clock, s)
  {
    LinkAt(table, stamp, clock, s);
    forall i: nat | i < |table| ensures SlotOk(table', stamp, clock, i) { assert SlotOk(table, stamp, clock, i); }
    if Used(table[s]) && table[s].key != key && table[s].nextSlot != NONE {
      SameKeysSameFind(table, table', stamp, clock, table[s].nextSlot, key);
    }
  }

  /** Changing the length of the entry of a key changes that key only. */
  lemma UpdateAgrees(table: seq<Entry>, stamp: seq<nat>, clock: nat, hash: Key -> nat, x: nat, length: nat,
                     contents: map<Key, Place>)
    requires Linked(table, stamp, clock) && Agrees(table, stamp, clock, hash, contents) && x < |table|
    requires FindKey(table, stamp, clock, hash, table[x].key) == Some(x)
    ensures Linked(table[x := table[x].(length := length)], stamp, clock)
    ensures table[x].key in contents
    ensures Agrees(table[x := table[x].(length := length)], stamp, clock, hash,
                   contents[table[x].key := contents[table[x].key].(length := length)])
  {
    hide Find, AgreesOn, Linked, FindKey;
    SameKeysSameFind(table, table[x := table[x].(length := length)], stamp, clock, x, table[x].key);
    UpdateAgreesOn(table, stamp, clock, hash, x, length, contents, table[x].key);
    var table' := table[x := table[x].(length := length)];
    var contents' := contents[table[x].key := contents[table[x].key].(length := length)];
    forall key: Key ensures AgreesOn(table', stamp, clock, hash, contents', key) {
      UpdateAgreesOn(table, stamp, clock, hash, x, length, contents, key);
    }
  }

  lemma UpdateAgreesOn(table: seq<Entry>, stamp: seq<nat>, clock: nat, hash: Key -> nat, x: nat, length: nat,
                       contents: map<Key, Place>, key: Key)
    requires Linked(table, stamp, clock) && x < |table|
    requires AgreesOn(table, stamp, clock, hash, contents, key)
    requires AgreesOn(table, stamp, clock, hash, contents, table[x].key)
    requires FindKey(table, stamp, clock, hash, table[x].key) == Some(x)
    ensures Linked(table[x := table[x].(length := length)], stamp, clock)
    ensures table[x].key in contents
    ensures AgreesOn(table[x := table[x].(length := length)], stamp, clock, hash,
                     contents[table[x].key := contents[table[x].key].(length := length)], key)
  {
    hide Find, Linked;
    SizeOf(table, stamp, clock);
    SameKeysSameFind(table, table[x := table[x].(length := length)], stamp, clock, Home(hash, |table|, key), key);
  }

  /** No other stored key is looked up by way of slot `x`. */
  ghost predicate Harmless(table: seq<Entry>, stamp: seq<nat>, clock: nat, hash: Key -> nat, x: nat, contents: map<Key, Place>)
    requires Linked(table, stamp, clock) && x < |table|
  {
    forall key: Key :: key in contents && key != table[x].key ==> !Passes(table, stamp, clock, Home(hash, |table|, key), key, x)
  }

  /** Deleting slot `x` takes away its key and no other if and only if it is harmless. */
  lemma DeleteAgreesIff(table: seq<Entry>, stamp: seq<nat>, clock: nat, hash: Key -> nat, x: nat, contents: map<Key, Place>)
    requires Linked(table, stamp, clock) && Agrees(table, stamp, clock, hash, contents) && x < |table| && Used(table[x])
    requires FindKey(table, stamp, clock, hash, table[x].key) == Some(x)
    ensures Linked(table[x := Blank()], stamp, clock)
    ensures Agrees(table[x := Blank()], stamp, clock, hash, contents - {table[x].key})
            <==> Harmless(table, stamp, clock, hash, x, contents)
  {
    hide Find, AgreesOn, Linked, FindKey, Passes;
    DeleteKeepsLinks(table, stamp, clock, x);
    var table', contents' := table[x := Blank()], contents - {table[x].key};
    forall key: Key
      ensures AgreesOn(table', stamp, clock, hash, contents', key)
              <==> !(key in contents && key != table[x].key && Passes(table, stamp, clock, Home(hash, |table|, key), key, x))
    {
      assert AgreesOn(table, stamp, clock, hash, contents, key);
      DeleteAgreesOn(table, stamp, clock, hash, x, contents, key);
    }
  }

  lemma DeleteAgreesOn(table: seq<Entry>, stamp: seq<nat>, clock: nat, hash: Key -> nat, x: nat,
                       contents: map<Key, Place>, key: Key)
    requires Linked(table, stamp, clock) && AgreesOn(table, stamp, clock, hash, contents, key) && x < |table|
    requires Used(table[x]) && FindKey(table, stamp, clock, hash, table[x].key) == Some(x)
    ensures Linked(table[x := Blank()], stamp, clock)
    ensures AgreesOn(table[x := Blank()], stamp, clock, hash, contents - {table[x].key}, key)
            <==> !(key in contents && key != table[x].key && Passes(table, stamp, clock, Home(hash, |table|, key), key, x))
  {
    hide Find, Passes, Linked;
    DeleteKeepsLinks(table, stamp, clock, x);
    LinkAt(table, stamp, clock, x);
    var h := Home(hash, |table|, key);
    DeleteLosesPassing(table, stamp, clock, x, h, key);
    FoundIsPassed(table, stamp, clock, h, key);
  }

  /** The end of a chain is harmless. */
  lemma EndIsHarmless(table: seq<Entry>, stamp: seq<nat>, clock: nat, hash: Key -> nat, x: nat, contents: map<Key, Place>)
    requires Linked(table, stamp, clock) && Agrees(table, stamp, clock, hash, contents) && x < |table| && Used(table[x])
    requires Ends(table, x)
    ensures Harmless(table, stamp, clock, hash, x, contents)
  {
    hide Find, Passes, Linked, Ends;
    SizeOf(table, stamp, clock);
    forall key: Key | key in contents && key != table[x].key
      ensures !Passes(table, stamp, clock, Home(hash, |table|, key), key, x)
    {
      assert AgreesOn(table, stamp, clock, hash, contents, key);
      var h := Home(hash, |table|, key);
      if Passes(table, stamp, clock, h, key, x) { EndIsPassedByItsKey(table, stamp, clock, x, h, key); }
    }
  }

  /** Deleting at the end of a chain takes away that key only. */
  lemma DeleteAtEndAgrees(table: seq<Entry>, stamp: seq<nat>, clock: nat, hash: Key -> nat, x: nat, contents: map<Key,
                          Place>)
    requires Linked(table, stamp, clock) && Agrees(table, stamp, clock, hash, contents) && x < |table| && Used(table[x])
    requires Ends(table, x)
    requires FindKey(table, stamp, clock, hash, table[x].key) == Some(x)
    ensures Linked(table[x := Blank()], stamp, clock)
    ensures Agrees(table[x := Blank()], stamp, clock, hash, contents - {table[x].key})
  {
    hide Find, AgreesOn, Linked, FindKey, Harmless, Ends;
    EndIsHarmless(table, stamp, clock, hash, x, contents);
    DeleteAgreesIff(table, stamp, clock, hash, x, contents);
  }

  lemma {:induction false} FoundIsPassed(table: seq<Entry>, stamp: seq<nat>, clock: nat, s: nat, key: Key)
    requires Linked(table, stamp, clock) && s < |table|
    ensures var r := Find(table, stamp, clock, s, key); r.Some? ==> Passes(table, stamp, clock, s, key, r.value)
    decreases Ahead(table, stamp, clock, s)
  {
    LinkAt(table, stamp, clock, s);
    if Used(table[s]) && table[s].key != key && table[s].nextSlot != NONE {
      FoundIsPassed(table, stamp, clock, table[s].nextSlot, key);
    }
  }

  // ----- Tables that grew by insertions only -----

  /** Without a deletion no link is stale, no slot is linked twice or is the home of the key linked
      into it, and every stored key is found. */
  ghost predicate Grown(table: seq<Entry>, stamp: seq<nat>, clock: nat, hash: Key -> nat)
    requires Linked(table, stamp, clock)
  {
    FreshLinks(table, hash) && Placed(table, stamp, clock, hash)
  }

  /** Every stored key is found where it is stored. */
  ghost predicate Placed(table: seq<Entry>, stamp: seq<nat>, clock: nat, hash: Key -> nat)
    requires Linked(table, stamp, clock)
  {
    forall s :: 0 <= s < |table| && Used(table[s]) ==> FindKey(table, stamp, clock, hash, table[s].key) == Some(s)
  }

  ghost predicate FreshLinks(table: seq<Entry>, hash: Key -> nat)
  {
    && (forall s :: 0 <= s < |table| && table[s].nextSlot != NONE ==>
          Used(table[s]) && table[s].nextSlot < |table| && Used(table[table[s].nextSlot])
          && Home(hash, |table|, table[table[s].nextSlot].key) != table[s].nextSlot)
    && (forall s, t :: 0 <= s < t < |table| && table[s].nextSlot != NONE ==> table[s].nextSlot != table[t].nextSlot)
  }

  lemma InsertKeepsFreshLinks(table: seq<Entry>, table': seq<Entry>, hash: Key -> nat, x: nat, e: Entry,
                              from: Option<nat>)
    requires Inserted(table, table', x, e, from) && FreshLinks(table, hash)
    requires from.Some? ==> Home(hash, |table|, e.key) != x
    ensures FreshLinks(table', hash)
  {
    hide Home;
  }

  lemma InsertKeepsPlaced(table: seq<Entry>, table': seq<Entry>, stamp: seq<nat>, clock: nat, hash: Key -> nat, x: nat,
                         e: Entry,
                         from: Option<nat>)
    requires Linked(table, stamp, clock) && InsertedForKey(table, table', stamp, clock, hash, x, e, from)
    requires Placed(table, stamp, clock, hash) && FindKey(table, stamp, clock, hash, e.key) == None
    ensures Linked(table', stamp[x := clock], clock + 1) && Placed(table', stamp[x := clock], clock + 1, hash)
    ensures FreshLinks(table, hash) ==> FreshLinks(table', hash)
  {
    hide Find, Linked, Tail, Inserted, FreshLinks;
    InsertKeepsLinks(table, table', stamp, clock, x, e, from);
    SizeOf(table, stamp, clock);
    InsertedAt(table, table', x, e, from, 0);
    if FreshLinks(table, hash) { InsertKeepsFreshLinks(table, table', hash, x, e, from); }
    var stamp' := stamp[x := clock];
    forall s | 0 <= s < |table| && Used(table'[s]) ensures FindKey(table', stamp', clock + 1, hash, table'[s].key) == Some(s) {
      InsertedAt(table, table', x, e, from, s);
      if s == x {
        InsertIsFound(table, table', stamp, clock, x, e, from, Home(hash, |table|, e.key));
      } else {
        assert FindKey(table, stamp, clock, hash, table[s].key) == Some(s);
        InsertKeepsOthers(table, table', stamp, clock, x, e, from, Home(hash, |table|, table[s].key), table[s].key);
      }
    }
  }

  /** A search that ends elsewhere than it starts comes past the slot that leads to its end. */
  lemma {:induction false} PassesTheLinkBefore(table: seq<Entry>, stamp: seq<nat>, clock: nat, hash: Key -> nat,
                                               s: nat, key: Key, x: nat)
    requires Linked(table, stamp, clock) && Grown(table, stamp, clock, hash) && s < |table| && x < |table|
    requires table[x].nextSlot != NONE && Find(table, stamp, clock, s, key) == Some(table[x].nextSlot)
    requires s != table[x].nextSlot
    ensures Passes(table, stamp, clock, s, key, x)
    decreases Ahead(table, stamp, clock, s)
  {
    LinkAt(table, stamp, clock, s);
    if s != x {
      PassesTheLinkBefore(table, stamp, clock, hash, table[s].nextSlot, key, x);
    }
  }

  /** In such a table a deletion leaves all other keys alone if and only if the slot has no
      `next_slot`: it wipes the link, and with it the way to what follows. */
  lemma DeleteKeepsOthersIff(table: seq<Entry>, stamp: seq<nat>, clock: nat, hash: Key -> nat, x: nat)
    requires Linked(table, stamp, clock) && Grown(table, stamp, clock, hash) && x < |table| && Used(table[x])
    ensures Linked(table[x := Blank()], stamp, clock)
    ensures table[x].nextSlot == NONE <==>
              forall key: Key :: key != table[x].key ==>
                FindKey(table[x := Blank()], stamp, clock, hash, key) == FindKey(table, stamp, clock, hash, key)
  {
    hide Find, Passes, Linked;
    DeleteKeepsLinks(table, stamp, clock, x);
    SizeOf(table, stamp, clock);
    var table' := table[x := Blank()];
    if table[x].nextSlot == NONE {
      forall key: Key | key != table[x].key
        ensures FindKey(table', stamp, clock, hash, key) == FindKey(table, stamp, clock, hash, key)
      {
        var h := Home(hash, |table|, key);
        DeleteLosesPassing(table, stamp, clock, x, h, key);
        if Passes(table, stamp, clock, h, key, x) { EndIsPassedByItsKey(table, stamp, clock, x, h, key); }
      }
    } else {
      var lost := table[table[x].nextSlot].key;
      var h := Home(hash, |table|, lost);
      assert FindKey(table, stamp, clock, hash, lost) == Some(table[x].nextSlot);
      PassesTheLinkBefore(table, stamp, clock, hash, h, lost, x);
      DeleteLosesPassing(table, stamp, clock, x, h, lost);
      NoSelfLink(table, stamp, clock, x);
      assert FindKey(table, stamp, clock, hash, table[x].key) == Some(x);
      assert FindKey(table', stamp, clock, hash, lost) == None && lost != table[x].key;
    }
  }

  lemma NoSelfLink(table: seq<Entry>, stamp: seq<nat>, clock: nat, s: nat)
    requires Linked(table, stamp, clock) && s < |table| && Used(table[s])
    ensures table[s].nextSlot != s
  {
    assert SlotOk(table, stamp, clock, s);
  }

  /** Two keys with one home slot: deleting the first one loses the second. */
  lemma DeleteLosesAKey()
    ensures var hash := (key: Key) => 0;
            var table := [Entry("a", 0, 4, 1), Entry("b", 4, 4, NONE)];
            && Linked(table, [0, 1], 2)
            && FindKey(table, [0, 1], 2, hash, "b") == Some(1)
            && Linked(table[0 := Blank()], [0, 1], 2)
            && FindKey(table[0 := Blank()], [0, 1], 2, hash, "b") == None
  {
    var table := [Entry("a", 0, 4, 1), Entry("b", 4, 4, NONE)];
    assert Find(table, [0, 1], 2, 1, "b") == Some(1);
  }

  lemma UpdateKeepsPlaced(table: seq<Entry>, stamp: seq<nat>, clock: nat, hash: Key -> nat, x: nat, length: nat)
    requires Linked(table, stamp, clock) && Placed(table, stamp, clock, hash) && x < |table|
    ensures Linked(table[x := table[x].(length := length)], stamp, clock)
    ensures Placed(table[x := table[x].(length := length)], stamp, clock, hash)
    ensures FreshLinks(table, hash) ==> FreshLinks(table[x := table[x].(length := length)], hash)
  {
    hide Find, Linked;
    SizeOf(table, stamp, clock);
    var table' := table[x := table[x].(length := length)];
    SameKeysSameFind(table, table', stamp, clock, x, table[x].key);
    forall key: Key
      ensures Linked(table', stamp, clock)
      ensures FindKey(table', stamp, clock, hash, key) == FindKey(table, stamp, clock, hash, key)
    {
      SameKeysSameFind(table, table', stamp, clock, Home(hash, |table|, key), key);
    }
  }

  // ----- Free slots -----

  lemma DeleteKeepsPlaced(table: seq<Entry>, stamp: seq<nat>, clock: nat, hash: Key -> nat, x: nat,
                          contents: map<Key, Place>)
    requires Linked(table, stamp, clock) && Placed(table, stamp, clock, hash) && x < |table| && Used(table[x])
    requires Agrees(table, stamp, clock, hash, contents) && Harmless(table, stamp, clock, hash, x, contents)
    ensures Linked(table[x := Blank()], stamp, clock) && Placed(table[x := Blank()], stamp, clock, hash)
  {
    hide Find, Linked, Passes;
    DeleteKeepsLinks(table, stamp, clock, x);
    SizeOf(table, stamp, clock);
    var table' := table[x := Blank()];
    forall s | 0 <= s < |table| && Used(table'[s]) ensures FindKey(table', stamp, clock, hash, table'[s].key) == Some(s) {
      var key := table[s].key;
      assert FindKey(table, stamp, clock, hash, key) == Some(s) && FindKey(table, stamp, clock, hash, table[x].key) == Some(x);
      assert AgreesOn(table, stamp, clock, hash, contents, key);
      DeleteLosesPassing(table, stamp, clock, x, Home(hash, |table|, key), key);
    }
  }

  ghost function UsedSlots(table: seq<Entry>): set<nat> {
    set s | 0 <= s < |table| && Used(table[s])
  }

  lemma {:induction false} AsManySlotsAsKeys(table: seq<Entry>, slots: set<nat>, keys: set<Key>)
    requires forall s :: s in slots ==> s < |table| && table[s].key in keys
    requires forall s, t :: s in slots && t in slots && s != t ==> table[s].key != table[t].key
    requires forall key :: key in keys ==> exists s :: s in slots && table[s].key == key
    ensures |slots| == |keys|
    decreases |slots|
  {
    if slots == {} {
      assert keys == {};
    } else {
      var s :| s in slots;
      var slots', keys' := slots - {s}, keys - {table[s].key};
      forall key | key in keys' ensures exists t :: t in slots' && table[t].key == key {
        var t :| t in slots && table[t].key == key;
        assert t in slots';
      }
      AsManySlotsAsKeys(table, slots', keys');
    }
  }

  lemma UsedSlotsHoldTheKeys(table: seq<Entry>, stamp: seq<nat>, clock: nat, hash: Key -> nat, contents: map<Key, Place>)
    requires Linked(table, stamp, clock) && Placed(table, stamp, clock, hash) && Agrees(table, stamp, clock, hash, contents)
    ensures |UsedSlots(table)| == |contents.Keys|
  {
    hide Find, Linked;
    var slots := UsedSlots(table);
    forall s | s in slots
      ensures s < |table| && table[s].key in contents.Keys && FindKey(table, stamp, clock, hash, table[s].key) == Some(s)
    {
      assert AgreesOn(table, stamp, clock, hash, contents, table[s].key);
    }
    forall key | key in contents.Keys ensures exists s :: s in slots && table[s].key == key {
      assert AgreesOn(table, stamp, clock, hash, contents, key);
      assert FindKey(table, stamp, clock, hash, key).value in slots;
    }
    hide Placed, Agrees, FindKey, UsedSlots;
    AsManySlotsAsKeys(table, slots, contents.Keys);
  }

  lemma FreeSlotLeft(table: seq<Entry>)
    ensures |UsedSlots(table)| <= |table|
    ensures |UsedSlots(table)| < |table| <==> exists s :: 0 <= s < |table| && !Used(table[s])
  {
    var slots, all := UsedSlots(table), Below(|table|);
    SubsetSize(slots, all);
    if s: nat :| s < |table| && !Used(table[s]) {
      SubsetSize(slots, all - {s});
    } else {
      assert slots == all;
    }
  }

  /** A slot is free exactly if the map has fewer keys than the table has slots. */
  lemma FreeSlotIff(table: seq<Entry>, stamp: seq<nat>, clock: nat, hash: Key -> nat, contents: map<Key, Place>)
    requires Linked(table, stamp, clock) && Placed(table, stamp, clock, hash) && Agrees(table, stamp, clock, hash, contents)
    ensures |contents| <= |table|
    ensures |contents| < |table| <==> exists s :: 0 <= s < |table| && !Used(table[s])
  {
    hide Linked, Placed, Agrees, UsedSlots;
    UsedSlotsHoldTheKeys(table, stamp, clock, hash, contents);
    FreeSlotLeft(table);
  }

  /** With fewer insertions than slots, some slot is free, whatever was deleted. */
  lemma RoomLeft(table: seq<Entry>, stamp: seq<nat>, clock: nat)
    requires Linked(table, stamp, clock) && clock < |table|
    ensures exists s :: 0 <= s < |table| && !Used(table[s])
  {
    if forall s :: 0 <= s < |table| ==> Used(table[s]) {
      forall s: nat | s < |table| ensures stamp[s] < clock { assert SlotOk(table, stamp, clock, s); }
      Pigeons(stamp, clock);
    }
  }

  lemma {:induction false} Pigeons(stamp: seq<nat>, clock: nat)
    requires forall s :: 0 <= s < |stamp| ==> stamp[s] < clock
    requires forall s, t :: 0 <= s < t < |stamp| ==> stamp[s] != stamp[t]
    ensures |stamp| <= clock
    decreases clock
  {
    if stamp == [] {
    } else if i :| 0 <= i < |stamp| && stamp[i] == clock - 1 {
      var rest := stamp[..i] + stamp[i + 1..];
      forall s | 0 <= s < |rest| ensures rest[s] == stamp[if s < i then s else s + 1] {}
      Pigeons(rest, clock - 1);
    } else {
      assert stamp[0] < clock;
      Pigeons(stamp, clock - 1);
    }
  }

  /** The slot `i` places behind the start of a table of `n`, going round. */
  function Round(n: nat, i: nat): (s: nat)
    requires i < 2 * n
    ensures s < n
  {
    if i < n then i else i - n
  }

  /** `slot` is the first free one at or behind `from`, going round. */
  ghost predicate FirstFree(table: seq<Entry>, from: nat, slot: nat)
  {
    && from < |table| && slot < |table| && !Used(table[slot])
    && exists k :: 0 <= k < |table| && slot == Round(|table|, from + k) && UsedRun(table, from, k)
  }

  ghost predicate UsedRun(table: seq<Entry>, from: nat, k: nat)
    requires from < |table| && k <= |table|
  {
    forall j :: from <= j < from + k ==> Used(table[Round(|table|, j)])
  }

  /** What a store makes of the map: a new key, or a new length for a small value. */
  function StoreInto(m: map<Key, Place>, key: Key, offset: nat, length: nat): map<Key, Place> {
    if key !in m then m[key := Place(offset, length)]
    else if length != m[key].length && length <= SMALL_LENGTH && m[key].length <= SMALL_LENGTH then
      m[key := m[key].(length := length)]
    else m
  }

  // ----- Commands -----

  /** A command, as far as the index is concerned; a store comes with the offset that the allocator
      would give. */
  datatype Op = StoreOp(key: Key, length: nat, newOffset: nat) | RetrieveOp(key: Key, length: nat)
              | ExistOp(key: Key) | DeleteOp(key: Key)

  datatype Reply = Success | KeyNotExist | Value(memOffset: nat, length: nat)

  /** The map after a command. */
  function After(m: map<Key, Place>, op: Op): map<Key, Place> {
    match op
    case StoreOp(key, length, newOffset) => StoreInto(m, key, newOffset, length)
    case DeleteOp(key) => m - {key}
    case _ => m
  }

  /** What a plain map would answer. */
  function ReplyOf(m: map<Key, Place>, op: Op): Reply {
    match op
    case StoreOp(_, _, _) => Success
    case RetrieveOp(key, length) =>
      if key in m then Value(m[key].memOffset, if m[key].length < length then m[key].length else length) else KeyNotExist
    case ExistOp(key) => if key in m then Success else KeyNotExist
    case DeleteOp(key) => if key in m then Success else KeyNotExist
  }

  lemma LookupAgrees(table: seq<Entry>, stamp: seq<nat>, clock: nat, hash: Key -> nat, contents: map<Key, Place>,
                     key: Key)
    requires Linked(table, stamp, clock)
    ensures var r := FindKey(table, stamp, clock, hash, key);
            && (r.Some? ==> r.value < |table| && Used(table[r.value]) && table[r.value].key == key)
            && (Agrees(table, stamp, clock, hash, contents) ==> (r.Some? <==> key in contents))
            && (Agrees(table, stamp, clock, hash, contents) && r.Some? ==>
                  contents[key] == Place(table[r.value].memOffset, table[r.value].length))
  {
    hide Linked, Find;
    if Agrees(table, stamp, clock, hash, contents) { assert AgreesOn(table, stamp, clock, hash, contents, key); }
  }

  lemma TailIsEnd(table: seq<Entry>, stamp: seq<nat>, clock: nat, s: nat)
    requires Linked(table, stamp, clock) && s < |table| && Used(table[s])
    ensures var t := Tail(table, stamp, clock, s);
            t < |table| && t != NONE && Used(table[t]) && Ends(table, t)
  {
  }

  lemma FreeSlotOf(table: seq<Entry>, from: nat, slot: nat)
    requires FirstFree(table, from, slot)
    ensures slot < |table| && !Used(table[slot])
  {
  }

  lemma BlankTable(table: seq<Entry>, stamp: seq<nat>, hash: Key -> nat)
    requires 0 < |table| <= NONE && |stamp| == |table|
    requires forall s :: 0 <= s < |table| ==> table[s] == Blank()
    ensures Linked(table, stamp, 0) && Agrees(table, stamp, 0, hash, map[]) && Grown(table, stamp, 0, hash)
  {
  }

  // ----- The index as a value, command by command -----

  datatype Index = Index(table: seq<Entry>, stamp: seq<nat>, clock: nat)

  ghost predicate WellLinked(i: Index) {
    Linked(i.table, i.stamp, i.clock)
  }

  ghost function Found(hash: Key -> nat, i: Index, key: Key): (r: Option<nat>)
    requires WellLinked(i)
    ensures r.Some? ==> r.value < |i.table|
  {
    FindKey(i.table, i.stamp, i.clock, hash, key)
  }

  /** Lookups answer as the map, and each stored key is found where it is stored. */
  ghost predicate StandsFor(hash: Key -> nat, i: Index, m: map<Key, Place>) {
    WellLinked(i) && Agrees(i.table, i.stamp, i.clock, hash, m) && Placed(i.table, i.stamp, i.clock, hash)
  }

  /** A new entry has gone to its hash slot, or to the first free slot behind the tail of its chain. */
  ghost predicate Entered(hash: Key -> nat, i: Index, e: Entry, i': Index)
    requires WellLinked(i)
  {
    exists x: nat, from: Option<nat> ::
      && InsertedForKey(i.table, i'.table, i.stamp, i.clock, hash, x, e, from)
      && (from.Some? ==> FirstFree(i.table, from.value, x))
      && x < |i.stamp| && i'.stamp == i.stamp[x := i.clock] && i'.clock == i.clock + 1
  }

  /** One command, exactly, whether or not the index still answers as a map. */
  ghost predicate Stepped(hash: Key -> nat, i: Index, op: Op, reply: Reply, i': Index)
  {
    WellLinked(i) &&
    var r := Found(hash, i, op.key);
    match op
    case StoreOp(key, length, newOffset) =>
      && reply == Success
      && (if r.None? then newOffset < NOWHERE && Entered(hash, i, Entry(key, newOffset, length, NONE), i')
          else
            var e := i.table[r.value];
            i' == if length != e.length && length <= SMALL_LENGTH && e.length <= SMALL_LENGTH then
                    i.(table := i.table[r.value := e.(length := length)])
                  else i)
    case RetrieveOp(key, length) =>
      && i' == i
      && (reply == if r.None? then KeyNotExist
                   else
                     var e := i.table[r.value];
                     Value(e.memOffset, if e.length < length then e.length else length))
    case ExistOp(_) => i' == i && reply == if r.Some? then Success else KeyNotExist
    case DeleteOp(_) =>
      && reply == (if r.Some? then Success else KeyNotExist)
      && i' == if r.Some? then i.(table := i.table[r.value := Blank()]) else i
  }

  /** The command deletes no slot by way of which another stored key is looked up. */
  ghost predicate Spares(hash: Key -> nat, i: Index, op: Op, m: map<Key, Place>)
  {
    && WellLinked(i)
    && (op.DeleteOp? && Found(hash, i, op.key).Some? ==>
          Harmless(i.table, i.stamp, i.clock, hash, Found(hash, i, op.key).value, m))
  }

  lemma EnteredAgrees(hash: Key -> nat, i: Index, e: Entry, i': Index, m: map<Key, Place>)
    requires StandsFor(hash, i, m) && e.key !in m && Entered(hash, i, e, i')
    ensures StandsFor(hash, i', m[e.key := Place(e.memOffset, e.length)])
  {
    hide Linked, Agrees, Placed, FreshLinks, InsertedForKey, FirstFree, FindKey;
    var x: nat, from: Option<nat> :| && InsertedForKey(i.table, i'.table, i.stamp, i.clock, hash, x, e, from)
                                     && x < |i.stamp| && i'.stamp == i.stamp[x := i.clock] && i'.clock == i.clock + 1;
    LookupAgrees(i.table, i.stamp, i.clock, hash, m, e.key);
    InsertAgrees(i.table, i'.table, i.stamp, i.clock, hash, x, e, from, m);
    InsertKeepsPlaced(i.table, i'.table, i.stamp, i.clock, hash, x, e, from);
  }

  lemma ResizedAgrees(hash: Key -> nat, i: Index, key: Key, length: nat, m: map<Key, Place>)
    requires StandsFor(hash, i, m) && Found(hash, i, key).Some?
    ensures var s := Found(hash, i, key).value;
            key in m && StandsFor(hash, i.(table := i.table[s := i.table[s].(length := length)]), m[key := m[key].(length := length)])
  {
    hide Linked, Agrees, Placed, FreshLinks, FindKey;
    var s := Found(hash, i, key).value;
    LookupAgrees(i.table, i.stamp, i.clock, hash, m, key);
    UpdateAgrees(i.table, i.stamp, i.clock, hash, s, length, m);
    UpdateKeepsPlaced(i.table, i.stamp, i.clock, hash, s, length);
  }

  lemma DeletedAgrees(hash: Key -> nat, i: Index, key: Key, m: map<Key, Place>)
    requires StandsFor(hash, i, m) && Found(hash, i, key).Some?
    ensures var s := Found(hash, i, key).value; var i' := i.(table := i.table[s := Blank()]);
            && WellLinked(i') && (StandsFor(hash, i', m - {key}) <==> Spares(hash, i, DeleteOp(key), m))
            && (Agrees(i'.table, i'.stamp, i'.clock, hash, m - {key}) <==> Spares(hash, i, DeleteOp(key), m))
  {
    hide Linked, Agrees, Placed, FindKey, Harmless;
    var s := Found(hash, i, key).value;
    LookupAgrees(i.table, i.stamp, i.clock, hash, m, key);
    DeleteAgreesIff(i.table, i.stamp, i.clock, hash, s, m);
    if Harmless(i.table, i.stamp, i.clock, hash, s, m) { DeleteKeepsPlaced(i.table, i.stamp, i.clock, hash, s, m); }
  }

  /** An index that stands for a map replies as the map, and goes on standing for it exactly if the
      command cuts off no key; otherwise some lookup is wrong from then on. */
  lemma StepAgrees(hash: Key -> nat, i: Index, op: Op, reply: Reply, i': Index, m: map<Key, Place>)
    requires StandsFor(hash, i, m) && Stepped(hash, i, op, reply, i')
    ensures reply == ReplyOf(m, op) && WellLinked(i')
    ensures StandsFor(hash, i', After(m, op)) <==> Spares(hash, i, op, m)
    ensures Agrees(i'.table, i'.stamp, i'.clock, hash, After(m, op)) <==> Spares(hash, i, op, m)
  {
    hide Linked, Agrees, Placed, FindKey, Harmless, Entered;
    LookupAgrees(i.table, i.stamp, i.clock, hash, m, op.key);
    match op {
      case StoreOp(key, length, newOffset) =>
        if key in m {
          ResizedAgrees(hash, i, key, length, m);
        } else {
          EnteredAgrees(hash, i, Entry(key, newOffset, length, NONE), i', m);
        }
      case RetrieveOp(_, _) =>
      case ExistOp(_) =>
      case DeleteOp(key) =>
        if key in m {
          DeletedAgrees(hash, i, key, m);
        } else {
          assert m - {key} == m;
        }
    }
  }

  // ----- Histories -----

  /** The map after the operations. */
  function Replay(ops: seq<Op>): map<Key, Place> {
    if ops == [] then map[] else After(Replay(ops[..|ops| - 1]), ops[|ops| - 1])
  }

  function BlankIndex(n: nat): Index {
    Index(seq(n, _ => Blank()), seq(n, _ => 0), 0)
  }

  /** The states and replies of a history of commands, from the blank table of `n` slots on. */
  ghost predicate IsHistory(hash: Key -> nat, n: nat, ops: seq<Op>, replies: seq<Reply>, states: seq<Index>)
  {
    && |replies| == |ops| && |states| == |ops| + 1 && states[0] == BlankIndex(n)
    && forall k :: 0 <= k < |ops| ==> Stepped(hash, states[k], ops[k], replies[k], states[k + 1])
  }

  /** Up to and including the first command that cuts off a key, a history is answered as by a plain
      map; and that command is the first after which some lookup is wrong. */
  lemma {:induction false} HistoryAgrees(hash: Key -> nat, n: nat, ops: seq<Op>, replies: seq<Reply>, states: seq<Index>,
                                         k: nat)
    requires 0 < n <= NONE && IsHistory(hash, n, ops, replies, states) && k <= |ops|
    requires forall j :: 0 <= j < k ==> Spares(hash, states[j], ops[j], Replay(ops[..j]))
    ensures StandsFor(hash, states[k], Replay(ops[..k]))
    ensures k < |ops| ==> replies[k] == ReplyOf(Replay(ops[..k]), ops[k]) && WellLinked(states[k + 1])
    ensures k < |ops| ==>
              (StandsFor(hash, states[k + 1], Replay(ops[..k + 1])) <==> Spares(hash, states[k], ops[k], Replay(ops[..k])))
    ensures k < |ops| && !Spares(hash, states[k], ops[k], Replay(ops[..k])) ==>
              var i := states[k + 1]; !Agrees(i.table, i.stamp, i.clock, hash, Replay(ops[..k + 1]))
  {
    hide StandsFor, Stepped, Spares, WellLinked, Agrees, After, ReplyOf;
    if k == 0 {
      BlankStandsForNothing(hash, n);
    } else {
      HistoryAgrees(hash, n, ops, replies, states, k - 1);
    }
    if k < |ops| {
      assert ops[..k + 1][..k] == ops[..k];
      StepAgrees(hash, states[k], ops[k], replies[k], states[k + 1], Replay(ops[..k]));
    }
  }

  lemma BlankStandsForNothing(hash: Key -> nat, n: nat)
    requires 0 < n <= NONE
    ensures StandsFor(hash, BlankIndex(n), map[])
  {
    BlankTable(BlankIndex(n).table, BlankIndex(n).stamp, hash);
  }

  ghost predicate AllSpared(hash: Key -> nat, ops: seq<Op>, states: seq<Index>)
    requires |states| == |ops| + 1
  {
    forall k :: 0 <= k < |ops| ==> Spares(hash, states[k], ops[k], Replay(ops[..k]))
  }

  /** After every command of a history all lookups answer as a plain map would, if and only if no
      command cuts off a key. */
  lemma HistoryIsMapIff(hash: Key -> nat, n: nat, ops: seq<Op>, replies: seq<Reply>, states: seq<Index>)
    requires 0 < n <= NONE && IsHistory(hash, n, ops, replies, states)
    ensures AllSpared(hash, ops, states) <==>
              forall k :: 0 <= k <= |ops| ==> StandsFor(hash, states[k], Replay(ops[..k]))
    ensures AllSpared(hash, ops, states) ==> forall k :: 0 <= k < |ops| ==> replies[k] == ReplyOf(Replay(ops[..k]), ops[k])
  {
    hide StandsFor, Stepped, Spares, ReplyOf, After;
    if AllSpared(hash, ops, states) {
      forall k: nat | k <= |ops|
        ensures StandsFor(hash, states[k], Replay(ops[..k]))
        ensures k < |ops| ==> replies[k] == ReplyOf(Replay(ops[..k]), ops[k])
      {
        HistoryAgrees(hash, n, ops, replies, states, k);
      }
    }
    if forall k :: 0 <= k <= |ops| ==> StandsFor(hash, states[k], Replay(ops[..k])) {
      SparedUpTo(hash, n, ops, replies, states, |ops|);
    }
  }

  lemma {:induction false} SparedUpTo(hash: Key -> nat, n: nat, ops: seq<Op>, replies: seq<Reply>, states: seq<Index>,
                                      k: nat)
    requires 0 < n <= NONE && IsHistory(hash, n, ops, replies, states) && k <= |ops|
    requires forall j :: 0 <= j <= |ops| ==> StandsFor(hash, states[j], Replay(ops[..j]))
    ensures forall j :: 0 <= j < k ==> Spares(hash, states[j], ops[j], Replay(ops[..j]))
  {
    hide StandsFor, Stepped, Spares, ReplyOf, After;
    if k > 0 {
      SparedUpTo(hash, n, ops, replies, states, k - 1);
      HistoryAgrees(hash, n, ops, replies, states, k - 1);
    }
  }

  lemma NoCommandYet(hash: Key -> nat, n: nat, i: Index)
    requires i.stamp == seq(n, _ => 0) && i.clock == 0 && |i.table| == n
    requires forall s :: 0 <= s < n ==> i.table[s] == Blank()
    ensures IsHistory(hash, n, [], [], [i]) && Replay([]) == map[]
  {
    assert i.table == BlankIndex(n).table;
  }

  lemma OneMoreCommand(hash: Key -> nat, n: nat, ops: seq<Op>, replies: seq<Reply>, states: seq<Index>, k: nat,
                       reply: Reply, i: Index)
    requires k < |ops| && IsHistory(hash, n, ops[..k], replies, states) && Stepped(hash, states[k], ops[k], reply, i)
    ensures IsHistory(hash, n, ops[..k + 1], replies + [reply], states + [i])
    ensures |states| == k + 1 && (AllSpared(hash, ops[..k + 1], states + [i]) ==> AllSpared(hash, ops[..k], states))
    ensures Replay(ops[..k + 1]) == After(Replay(ops[..k]), ops[k])
  {
    hide Stepped, Spares, Replay;
    var ops', replies', states' := ops[..k + 1], replies + [reply], states + [i];
    assert forall j :: 0 <= j <= k ==> ops'[..j] == ops[..j] && ops[..k][..j] == ops[..j];
    assert Replay(ops') == After(Replay(ops[..k]), ops[k]) by { LastReplayed(ops'); }
    forall j | 0 <= j < k + 1 ensures Stepped(hash, states'[j], ops'[j], replies'[j], states'[j + 1]) {
      assert j < k ==> Stepped(hash, states[j], ops[..k][j], replies[j], states[j + 1]);
    }
    if AllSpared(hash, ops', states') {
      forall j | 0 <= j < k ensures Spares(hash, states[j], ops[..k][j], Replay(ops[..k][..j])) {
        assert Spares(hash, states'[j], ops'[j], Replay(ops'[..j]));
      }
    }
  }

  lemma LastReplayed(ops: seq<Op>)
    requires ops != []
    ensures Replay(ops) == After(Replay(ops[..|ops| - 1]), ops[|ops| - 1])
  {
  }

  lemma AnsweredSoFar(hash: Key -> nat, n: nat, ops: seq<Op>, replies: seq<Reply>, states: seq<Index>)
    requires 0 < n <= NONE && IsHistory(hash, n, ops, replies, states)
    ensures AllSpared(hash, ops, states) ==> StandsFor(hash, states[|ops|], Replay(ops))
    ensures AllSpared(hash, ops, states) ==> forall k :: 0 <= k < |ops| ==> replies[k] == ReplyOf(Replay(ops[..k]), ops[k])
  {
    hide StandsFor, Stepped, Spares, ReplyOf, After;
    HistoryIsMapIff(hash, n, ops, replies, states);
    assert ops[..|ops|] == ops;
  }

  /** The key-value drive, as far as its index goes.  The ghost fields hold the stamps of the slots
      and the map that the index stands for. */
  class KvFtl {
    const mappingTable: array<Entry>
    const hash: Key -> nat
    ghost var stamp: seq<nat>
    ghost var clock: nat
    ghost var contents: map<Key, Place>

    ghost predicate Valid()
      reads this, mappingTable
    {
      Linked(mappingTable[..], stamp, clock)
    }

    ghost function Now(): Index
      reads this, mappingTable
    {
      Index(mappingTable[..], stamp, clock)
    }

    /** Lookups answer as the map. */
    ghost predicate Exact()
      reads this, mappingTable
    {
      Valid() && Agrees(mappingTable[..], stamp, clock, hash, contents)
    }

    /** The slot at which a lookup of the key ends with success. */
    ghost function SlotOf(key: Key): (r: Option<nat>)
      requires Valid()
      reads this, mappingTable
      ensures r.Some? ==> r.value < mappingTable.Length
    {
      FindKey(mappingTable[..], stamp, clock, hash, key)
    }

    /** A deletion of `key` leaves all other stored keys alone. */
    ghost predicate CanDelete(key: Key)
      requires Valid()
      reads this, mappingTable
    {
      SlotOf(key).Some? ==> Harmless(mappingTable[..], stamp, clock, hash, SlotOf(key).value, contents)
    }

    constructor (hashFunction: Key -> nat, hashSlots: nat)
      requires 0 < hashSlots <= NONE
      ensures Valid() && Exact() && fresh(mappingTable) && mappingTable.Length == hashSlots && hash == hashFunction
      ensures contents == map[] && clock == 0 && Grown(mappingTable[..], stamp, clock, hash)
      ensures stamp == seq(hashSlots, _ => 0) && forall s :: 0 <= s < hashSlots ==> mappingTable[..][s] == Blank()
    {
      hide Linked, Agrees, Grown, FindKey, Find;
      hash := hashFunction;
      mappingTable := new Entry[hashSlots](_ => Entry("", 0, 0, 0));
      stamp, clock, contents := seq(hashSlots, _ => 0), 0, map[];
      new;
      for i := 0 to hashSlots
        modifies mappingTable
        invariant forall s :: 0 <= s < i ==> mappingTable[s] == Blank()
      {
        mappingTable[i] := Blank();
      }
      BlankTable(mappingTable[..], stamp, hash);
    }

    /** A new key for a full table: the map has a key for each slot. */
    lemma FullMap(key: Key)
      requires StandsFor(hash, Now(), contents) && SlotOf(key).None? && forall e :: e in mappingTable[..] ==> Used(e)
      ensures Exact() && |contents| == mappingTable.Length && key !in contents
    {
      hide Linked, Agrees, Placed, FindKey;
      FreeSlotIff(mappingTable[..], stamp, clock, hash, contents);
      LookupAgrees(mappingTable[..], stamp, clock, hash, contents, key);
    }

    lemma ContentsIsExact()
      requires StandsFor(hash, Now(), contents)
      ensures Exact()
    {
    }

    /** The walk along the chain that lookup, update and deletion share. */
    method FindSlot(key: Key) returns (r: Option<nat>)
      requires Valid()
      ensures r == SlotOf(key)
    {
      hide Linked, Ahead;
      ghost var table := mappingTable[..];
      SizeOf(table, stamp, clock);
      var slot := Home(hash, mappingTable.Length, key);
      while Used(mappingTable[slot])
        invariant 0 <= slot < mappingTable.Length
        invariant Find(table, stamp, clock, slot, key) == FindKey(table, stamp, clock, hash, key)
        decreases Ahead(table, stamp, clock, slot)
      {
        LinkAt(table, stamp, clock, slot);
        if mappingTable[slot].key == key {
          return Some(slot);
        }
        if mappingTable[slot].nextSlot == NONE {
          return None;
        }
        slot := mappingTable[slot].nextSlot;
      }
      return None;
    }

    /** `get_mapping_entry`, `get_mapping_entry_by_key`: an unused entry for an absent key. */
    method GetMappingEntry(key: Key) returns (mapping: Entry)
      requires Valid()
      ensures SlotOf(key) == None ==> mapping == Blank()
      ensures SlotOf(key).Some? ==> mapping == mappingTable[SlotOf(key).value] && Used(mapping) && mapping.key == key
      ensures Exact() ==> (Used(mapping) <==> key in contents)
      ensures Exact() && key in contents ==> contents[key] == Place(mapping.memOffset, mapping.length)
    {
      hide Linked, Find, Agrees;
      var r := FindSlot(key);
      mapping := if r.Some? then mappingTable[r.value] else Blank();
      LookupAgrees(mappingTable[..], stamp, clock, hash, contents, key);
    }

    /** `find_next_slot`: the tail of the chain, and the first free slot behind it. */
    method FindNextSlot(originalSlot: nat) returns (slot: nat, prevSlot: nat)
      requires Valid() && originalSlot < mappingTable.Length && Used(mappingTable[originalSlot])
      requires exists s :: 0 <= s < mappingTable.Length && !Used(mappingTable[..][s])
      ensures prevSlot == Tail(mappingTable[..], stamp, clock, originalSlot)
      ensures FirstFree(mappingTable[..], prevSlot, slot)
    {
      prevSlot := FindTail(originalSlot);
      slot := Probe(prevSlot);
    }

    method FindTail(originalSlot: nat) returns (prevSlot: nat)
      requires Valid() && originalSlot < mappingTable.Length && Used(mappingTable[originalSlot])
      ensures prevSlot == Tail(mappingTable[..], stamp, clock, originalSlot)
    {
      hide Linked, Ahead;
      ghost var table := mappingTable[..];
      SizeOf(table, stamp, clock);
      var tail := originalSlot;
      prevSlot := originalSlot;
      while Used(mappingTable[tail])
        invariant tail < mappingTable.Length && prevSlot < mappingTable.Length && Used(mappingTable[prevSlot])
        invariant tail == prevSlot || mappingTable[prevSlot].nextSlot == tail
        invariant Tail(table, stamp, clock, prevSlot) == Tail(table, stamp, clock, originalSlot)
        invariant tail == prevSlot ==> tail == originalSlot
        decreases Ahead(table, stamp, clock, tail)
      {
        LinkAt(table, stamp, clock, tail);
        prevSlot := tail;
        tail := mappingTable[tail].nextSlot;
        if tail == NONE {
          break;
        }
      }
    }

    method Probe(prevSlot: nat) returns (slot: nat)
      requires prevSlot < mappingTable.Length
      requires exists s :: 0 <= s < mappingTable.Length && !Used(mappingTable[..][s])
      ensures FirstFree(mappingTable[..], prevSlot, slot)
    {
      ghost var table := mappingTable[..];
      ghost var e :| 0 <= e < |table| && !Used(table[e]);
      ghost var far := if e >= prevSlot then e - prevSlot else e - prevSlot + |table|;
      assert Round(|table|, prevSlot + far) == e;
      slot := prevSlot;
      ghost var k := 0;
      while Used(mappingTable[slot])
        invariant 0 <= k <= far < |table| && slot == Round(|table|, prevSlot + k) && UsedRun(table, prevSlot, k)
        decreases far - k
      {
        slot := slot + 1;
        if slot >= mappingTable.Length {
          slot := 0;
        }
        k := k + 1;
      }
    }

    /** `new_mapping_entry`, `new_mapping_entry_by_key`.  An absent key is found afterwards, and no
        other key is disturbed. */
    method NewMappingEntry(key: Key, valOffset: nat, length: nat) returns (ghost x: nat, ghost from: Option<nat>)
      requires Valid() && valOffset < NOWHERE
      requires exists s :: 0 <= s < mappingTable.Length && !Used(mappingTable[..][s])
      modifies this`stamp, this`clock, this`contents, mappingTable
      ensures Valid() && clock == old(clock) + 1 && x < |old(stamp)| && stamp == old(stamp)[x := old(clock)]
      ensures old(Valid()) && InsertedForKey(old(mappingTable[..]), mappingTable[..], old(stamp), old(clock), hash, x,
                                             Entry(key, valOffset, length, NONE), from)
      ensures from.Some? ==> FirstFree(old(mappingTable[..]), from.value, x)
      ensures mappingTable.Length > 0 && hash(key) % mappingTable.Length < |old(mappingTable[..])|
      ensures !Used(old(mappingTable[..])[hash(key) % mappingTable.Length]) ==> x == hash(key) % mappingTable.Length
      ensures contents == old(contents)[key := Place(valOffset, length)]
      ensures old(Exact()) && key !in old(contents) ==> Exact()
    {
      hide Linked, Agrees, Tail, FirstFree;
      ghost var table := mappingTable[..];
      SizeOf(table, stamp, clock);
      var slot := Home(hash, mappingTable.Length, key);
      var prevSlot := NONE;
      if Used(mappingTable[slot]) {
        slot, prevSlot := FindNextSlot(slot);
        TailIsEnd(table, stamp, clock, Home(hash, |table|, key));
        FreeSlotOf(table, prevSlot, slot);
      }
      LinkAt(table, stamp, clock, slot);
      mappingTable[slot] := mappingTable[slot].(key := key);
      mappingTable[slot] := mappingTable[slot].(memOffset := valOffset);
      mappingTable[slot] := mappingTable[slot].(length := length);
      if prevSlot != NONE {
        mappingTable[prevSlot] := mappingTable[prevSlot].(nextSlot := slot);
      }
      x, from := slot, if prevSlot == NONE then None else Some(prevSlot);
      ghost var entry := Entry(key, valOffset, length, NONE);
      assert Inserted(table, mappingTable[..], x, entry, from);
      InsertKeepsLinks(table, mappingTable[..], stamp, clock, x, entry, from);
      if Agrees(table, stamp, clock, hash, contents) && key !in contents {
        InsertAgrees(table, mappingTable[..], stamp, clock, hash, x, entry, from, contents);
      }
      stamp, clock, contents := stamp[x := clock], clock + 1, contents[key := Place(valOffset, length)];
    }

    /** `update_mapping_entry`. */
    method UpdateMappingEntry(key: Key, length: nat) returns (ok: bool)
      requires Valid()
      modifies this`contents, mappingTable
      ensures Valid() && ok == old(SlotOf(key)).Some?
      ensures mappingTable[..] == if ok then old(mappingTable[..][SlotOf(key).value := mappingTable[SlotOf(key).value].(length := length)])
                                  else old(mappingTable[..])
      ensures old(Exact()) ==> Exact() && ok == (key in old(contents))
      ensures contents == if key in old(contents) then old(contents)[key := old(contents)[key].(length := length)] else old(contents)
    {
      hide Linked, Agrees, Find;
      ghost var table := mappingTable[..];
      LookupAgrees(table, stamp, clock, hash, contents, key);
      var r := FindSlot(key);
      ok := r.Some?;
      if ok {
        SameKeysSameFind(table, table[r.value := table[r.value].(length := length)], stamp, clock, r.value, key);
        if Agrees(table, stamp, clock, hash, contents) {
          UpdateAgrees(table, stamp, clock, hash, r.value, length, contents);
        }
        mappingTable[r.value] := mappingTable[r.value].(length := length);
        assert mappingTable[..] == table[r.value := table[r.value].(length := length)];
      }
      contents := if key in contents then contents[key := contents[key].(length := length)] else contents;
    }

    /** `delete_mapping_entry`: the entry is wiped, link and all. */
    method DeleteMappingEntry(key: Key)
      requires Valid()
      modifies this`contents, mappingTable
      ensures Valid()
      ensures mappingTable[..] == match old(SlotOf(key))
                                  case None => old(mappingTable[..])
                                  case Some(s) => old(mappingTable[..])[s := Blank()]
      ensures contents == old(contents) - {key}
      ensures old(Exact()) ==> (Exact() <==> old(CanDelete(key)))
      ensures old(Exact()) && old(SlotOf(key)).Some? && Ends(old(mappingTable[..]), old(SlotOf(key)).value) ==> Exact()
      ensures old(Exact()) && old(CanDelete(key)) && Placed(old(mappingTable[..]), stamp, clock, hash)
              ==> Placed(mappingTable[..], stamp, clock, hash)
    {
      hide Linked, Agrees, Find, Ends, Harmless, Placed;
      ghost var table := mappingTable[..];
      LookupAgrees(table, stamp, clock, hash, contents, key);
      var r := FindSlot(key);
      if r.Some? {
        DeleteKeepsLinks(table, stamp, clock, r.value);
        if Agrees(table, stamp, clock, hash, contents) {
          DeleteAgreesIff(table, stamp, clock, hash, r.value, contents);
          if Ends(table, r.value) { DeleteAtEndAgrees(table, stamp, clock, hash, r.value, contents); }
          if Placed(table, stamp, clock, hash) && Harmless(table, stamp, clock, hash, r.value, contents) {
            DeleteKeepsPlaced(table, stamp, clock, hash, r.value, contents);
          }
        }
        mappingTable[r.value] := Blank();
        assert mappingTable[..] == table[r.value := Blank()];
      } else {
        assert key !in contents ==> contents - {key} == contents;
      }
      contents := contents - {key};
    }

    /** The store of `__do_perform_kv_io`, with the offset that the allocator would give. */
    method Store(key: Key, newOffset: nat, length: nat)
      requires Valid() && newOffset < NOWHERE
      requires SlotOf(key).None? ==> exists s :: 0 <= s < mappingTable.Length && !Used(mappingTable[..][s])
      modifies this`stamp, this`clock, this`contents, mappingTable
      ensures Stepped(hash, old(Now()), StoreOp(key, length, newOffset), Success, Now())
      ensures Valid() && (old(Exact()) ==> Exact() && contents == StoreInto(old(contents), key, newOffset, length))
      ensures old(Placed(mappingTable[..], stamp, clock, hash)) ==> Placed(mappingTable[..], stamp, clock, hash)
      ensures old(Grown(mappingTable[..], stamp, clock, hash)) ==> Grown(mappingTable[..], stamp, clock, hash)
    {
      hide Linked, Agrees, Find, Placed, FreshLinks, InsertedForKey, FirstFree;
      ghost var table, stamp0, clock0 := mappingTable[..], stamp, clock;
      LookupAgrees(table, stamp, clock, hash, contents, key);
      var entry := GetMappingEntry(key);
      if !Used(entry) {
        ghost var x, from := NewMappingEntry(key, newOffset, length);
        assert Entered(hash, Index(table, stamp0, clock0), Entry(key, newOffset, length, NONE), Now());
        if Placed(table, stamp0, clock0, hash) {
          InsertKeepsPlaced(table, mappingTable[..], stamp0, clock0, hash, x, Entry(key, newOffset, length, NONE), from);
        }
      } else if length != entry.length && length <= SMALL_LENGTH && entry.length <= SMALL_LENGTH {
        ghost var s := SlotOf(key).value;
        var ok := UpdateMappingEntry(key, length);
        if Placed(table, stamp, clock, hash) { UpdateKeepsPlaced(table, stamp, clock, hash, s, length); }
      }
    }

    /** `__do_perform_kv_io`: each command does exactly what it should; while lookups answer as the
        map the reply is that of the map, and they go on doing so unless the command deletes a slot on
        the way to another stored key. */
    method Perform(op: Op) returns (reply: Reply)
      requires Valid()
      requires op.StoreOp? ==> op.newOffset < NOWHERE
      requires op.StoreOp? && SlotOf(op.key).None? ==> exists s :: 0 <= s < mappingTable.Length && !Used(mappingTable[..][s])
      modifies this`stamp, this`clock, this`contents, mappingTable
      ensures Valid() && Stepped(hash, old(Now()), op, reply, Now())
      ensures old(Exact()) ==> contents == After(old(contents), op) && reply == ReplyOf(old(contents), op)
      ensures old(Exact()) ==> (Exact() <==> (op.DeleteOp? ==> old(CanDelete(op.key))))
      ensures old(Exact()) && Exact() && old(Placed(mappingTable[..], stamp, clock, hash)) ==>
                Placed(mappingTable[..], stamp, clock, hash)
      ensures old(Grown(mappingTable[..], stamp, clock, hash)) && !op.DeleteOp? ==> Grown(mappingTable[..], stamp, clock, hash)
    {
      hide Linked, Agrees, Find, FindKey, Placed, FreshLinks, Harmless, StoreInto, Entered;
      var entry := GetMappingEntry(op.key);
      match op {
        case StoreOp(key, length, newOffset) =>
          Store(key, newOffset, length);
          reply := Success;
        case RetrieveOp(key, length) =>
          reply := if Used(entry) then Value(entry.memOffset, if entry.length < length then entry.length else length)
                   else KeyNotExist;
        case ExistOp(key) =>
          reply := if Used(entry) then Success else KeyNotExist;
        case DeleteOp(key) =>
          if Used(entry) {
            DeleteMappingEntry(key);
            reply := Success;
          } else {
            reply := KeyNotExist;
          }
      }
    }

    /** A command, unless it stores a new key in a full table, where the original probes for ever. */
    method Serve(op: Op) returns (reply: Option<Reply>)
      requires Valid() && (op.StoreOp? ==> op.newOffset < NOWHERE)
      modifies this`stamp, this`clock, this`contents, mappingTable
      ensures Valid()
      ensures reply.None? <==> op.StoreOp? && old(SlotOf(op.key)).None? && forall e :: e in old(mappingTable[..]) ==> Used(e)
      ensures reply.None? ==>
        && Now() == old(Now()) && contents == old(contents)
        && SlotOf(op.key).None? && forall e :: e in mappingTable[..] ==> Used(e)
      ensures reply.Some? ==> Stepped(hash, old(Now()), op, reply.value, Now())
      ensures reply.Some? && old(Exact()) ==> contents == After(old(contents), op)
      ensures old(Grown(mappingTable[..], stamp, clock, hash)) && !op.DeleteOp? ==> Grown(mappingTable[..], stamp, clock, hash)
    {
      hide Linked, Agrees, FreshLinks, Placed, FindKey, StoreInto, Harmless, After, ReplyOf, CanDelete, Stepped;
      var r := FindSlot(op.key);
      if op.StoreOp? && r.None? && forall s :: 0 <= s < mappingTable.Length ==> Used(mappingTable[s]) {
        return None;
      }
      var done := Perform(op);
      return Some(done);
    }
  }

  /** Every history of commands, from `kv_init` on, goes on until a new key is to be stored in a full
      table.  While no deletion cuts off a key it is answered as by a plain map, and ends only when the
      map has a key for each slot. */
  method Run(hash: Key -> nat, hashSlots: nat, ops: seq<Op>)
    returns (kv: KvFtl, replies: seq<Reply>, ghost states: seq<Index>)
    requires 0 < hashSlots <= NONE
    requires forall i :: 0 <= i < |ops| && ops[i].StoreOp? ==> ops[i].newOffset < NOWHERE
    ensures kv.hash == hash && kv.mappingTable.Length == hashSlots && kv.Valid() && |replies| <= |ops|
    ensures IsHistory(hash, hashSlots, ops[..|replies|], replies, states) && kv.Now() == states[|replies|]
    ensures |replies| < |ops| ==>
              && ops[|replies|].StoreOp? && kv.SlotOf(ops[|replies|].key).None?
              && forall e :: e in kv.mappingTable[..] ==> Used(e)
    ensures AllSpared(hash, ops[..|replies|], states) ==>
              && kv.Exact() && kv.contents == Replay(ops[..|replies|])
              && (forall i :: 0 <= i < |replies| ==> replies[i] == ReplyOf(Replay(ops[..i]), ops[i]))
              && (|replies| < |ops| ==> |kv.contents| == hashSlots && ops[|replies|].key !in kv.contents)
    ensures (forall i :: 0 <= i < |ops| ==> !ops[i].DeleteOp?) ==> Grown(kv.mappingTable[..], kv.stamp, kv.clock, kv.hash)
  {
    hide StandsFor, IsHistory, AllSpared, Stepped, Linked, Agrees, Grown, FindKey, After, ReplyOf, Replay, Used;
    hide KvFtl.SlotOf, KvFtl.Exact;
    kv := new KvFtl(hash, hashSlots);
    replies, states := [], [kv.Now()];
    NoCommandYet(hash, hashSlots, kv.Now());
    assert ops[..0] == [];
    for i := 0 to |ops|
      invariant fresh(kv) && fresh(kv.mappingTable) && kv.hash == hash && kv.mappingTable.Length == hashSlots && kv.Valid()
      invariant |replies| == i && |states| == i + 1 && kv.Now() == states[i]
      invariant IsHistory(hash, hashSlots, ops[..i], replies, states)
      invariant AllSpared(hash, ops[..i], states) ==> kv.contents == Replay(ops[..i])
      invariant (forall j :: 0 <= j < i ==> !ops[j].DeleteOp?) ==> Grown(kv.mappingTable[..], kv.stamp, kv.clock, kv.hash)
    {
      AnsweredSoFar(hash, hashSlots, ops[..i], replies, states);
      assert forall j :: 0 <= j < i ==> ops[..i][..j] == ops[..j];
      if AllSpared(hash, ops[..i], states) { kv.ContentsIsExact(); }
      var reply := kv.Serve(ops[i]);
      if reply.None? {
        if AllSpared(hash, ops[..i], states) { kv.FullMap(ops[i].key); }
        return;
      }
      OneMoreCommand(hash, hashSlots, ops, replies, states, i, reply.value, kv.Now());
      replies, states := replies + [reply.value], states + [kv.Now()];
    }
    assert ops[..|ops|] == ops;
    AnsweredSoFar(hash, hashSlots, ops, replies, states);
    if AllSpared(hash, ops, states) { kv.ContentsIsExact(); }
  }
}
