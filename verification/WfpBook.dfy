/** The firewall's book of filter ids, and what it means for the book to be exact. */
module WfpBook {
  import opened WfpPolicy
  import opened WfpStore

  /** The store together with every id the firewall has noted down. */
  datatype Book = Book(live: Store, owner: map<nat, Owner>, base: seq<nat>,
                       tunnels: map<string, seq<nat>>, guards: map<string, seq<nat>>, dns: seq<nat>)
  {
    function Ids(o: Owner): seq<nat> {
      match o
      case Base => base
      case Tunnel(name) => if name in tunnels then tunnels[name] else []
      case Guard(name) => if name in guards then guards[name] else []
      case Dns => dns
    }

    function With(o: Owner, ids: seq<nat>): Book {
      match o
      case Base => this.(base := ids)
      case Tunnel(name) => this.(tunnels := tunnels[name := ids])
      case Guard(name) => this.(guards := guards[name := ids])
      case Dns => this.(dns := ids)
    }

    function Without(o: Owner): Book {
      match o
      case Base => this.(base := [])
      case Tunnel(name) => this.(tunnels := tunnels - {name})
      case Guard(name) => this.(guards := guards - {name})
      case Dns => this.(dns := [])
    }

    /** `fs` installed for `o` under the ids from `n` and noted after `known`. */
    function Put(o: Owner, known: seq<nat>, n: nat, fs: seq<Filter>): Book {
      var store := Extend(live, n, fs);
      With(o, known + Range(n, |fs|)).(live := store, owner := Reassign(store, owner, o))
    }

    /** What is left when `o` gives up its ids and the store becomes `store`. */
    function Take(o: Owner, store: Store): Book {
      Without(o).(live := store, owner := Reassign(store, owner, o))
    }
  }

  const EMPTY_BOOK := Book(map[], map[], [], map[], map[], [])

  function Reassign(live: Store, owner: map<nat, Owner>, o: Owner): map<nat, Owner> {
    map id | id in live :: if id in owner then owner[id] else o
  }

  /** The whole base set, both catch-all blocks included, is installed. */
  ghost predicate BaseInForce(live: Store, base: seq<nat>) {
    && |base| == |BaseFilters()|
    && forall i :: 0 <= i < |base| ==> base[i] in live && live[base[i]] == BaseFilters()[i]
  }

  /** Only the base set holds a catch-all block. */
  ghost predicate CatchAllsAreBase(live: Store, base: seq<nat>) {
    forall id :: id in live && live[id].weight == 0 ==> id in base
  }

  /** What holds of the book in every reachable state, whichever calls failed:
      the base set is in force exactly while the kill switch is on, and no noted
      id that a later call may delete belongs to it. */
  ghost predicate Sound(b: Book, killSwitch: bool, nextId: nat) {
    && (if killSwitch then BaseInForce(b.live, b.base) else b.base == [])
    && CatchAllsAreBase(b.live, b.base)
    && (forall id :: id in b.live ==> id < nextId)
    && (forall o :: NotesApart(b, nextId, o))
  }

  /** The ids noted for `o` have been handed out, and are not the base set's. */
  ghost predicate NotesApart(b: Book, nextId: nat, o: Owner) {
    forall id :: id in b.Ids(o) ==> id < nextId && (o != Base ==> id !in b.base)
  }

  /** Under the ids noted for it, `o` owns exactly `fs`, in installation order. */
  ghost predicate Carries(live: Store, owner: map<nat, Owner>, o: Owner, ids: seq<nat>, fs: seq<Filter>) {
    && |ids| == |fs|
    && (forall i :: 0 <= i < |ids| ==>
          ids[i] in live && live[ids[i]] == fs[i] && ids[i] in owner && owner[ids[i]] == o)
    && (forall id :: id in owner && owner[id] == o ==> id in ids)
  }

  /** The filters wanted on behalf of each owner. */
  type Wish = Owner -> seq<Filter>

  /** The live filters are the disjoint union, over the owners, of what is
      wanted for each: every live id has one owner and is noted by it. */
  ghost predicate Tracks(b: Book, want: Wish) {
    b.owner.Keys == b.live.Keys && forall o :: CarriesOwn(b, want, o)
  }

  ghost predicate CarriesOwn(b: Book, want: Wish, o: Owner) { Carries(b.live, b.owner, o, b.Ids(o), want(o)) }

  /** Distinct owners never share an id, and every live id is somebody's. */
  lemma TrackedIdsAreDisjoint(b: Book, want: Wish)
    requires Tracks(b, want)
    ensures forall o, q, id :: id in b.Ids(o) && id in b.Ids(q) ==> o == q
    ensures forall id :: id in b.live <==> exists o :: id in b.Ids(o)
  {
    forall o, q, id | id in b.Ids(o) && id in b.Ids(q) ensures o == q {
      assert CarriesOwn(b, want, o) && CarriesOwn(b, want, q);
    }
    forall id | exists o :: id in b.Ids(o) ensures id in b.live {
      var o :| id in b.Ids(o);
      assert CarriesOwn(b, want, o);
    }
    forall id | id in b.live ensures exists o :: id in b.Ids(o) {
      assert CarriesOwn(b, want, b.owner[id]);
    }
  }

  /** Only owner `o` is wanted other filters for. */
  ghost predicate OnlyChanges(want: Wish, want': Wish, o: Owner) {
    forall q :: q != o ==> want'(q) == want(q)
  }

  /** An install under fresh ids leaves every other owner's filters alone. */
  lemma CarriesStill(live: Store, owner: map<nat, Owner>, o: Owner, n: nat, gs: seq<Filter>,
                     q: Owner, ids: seq<nat>, fs: seq<Filter>)
    requires owner.Keys == live.Keys && Carries(live, owner, q, ids, fs) && q != o
    requires forall id :: id in live ==> id < n
    ensures Carries(Extend(live, n, gs), Reassign(Extend(live, n, gs), owner, o), q, ids, fs)
  {
  }

  lemma NewAreOwned(live: Store, owner: map<nat, Owner>, o: Owner, n: nat, fs: seq<Filter>, i: nat)
    requires owner.Keys == live.Keys && (forall id :: id in owner ==> id < n) && i < |fs|
    ensures var store := Extend(live, n, fs);
            && n + i in store && store[n + i] == fs[i]
            && n + i in Reassign(store, owner, o) && Reassign(store, owner, o)[n + i] == o
  {
    assert n + i in Range(n, |fs|);
  }

  lemma CarriesNew(live: Store, owner: map<nat, Owner>, o: Owner, n: nat, fs: seq<Filter>)
    requires owner.Keys == live.Keys && forall id :: id in owner ==> owner[id] != o && id < n
    ensures Carries(Extend(live, n, fs), Reassign(Extend(live, n, fs), owner, o), o, Range(n, |fs|), fs)
  {
    var store, ids := Extend(live, n, fs), Range(n, |fs|);
    var owner' := Reassign(store, owner, o);
    forall i | 0 <= i < |ids|
      ensures ids[i] in store && store[ids[i]] == fs[i] && ids[i] in owner' && owner'[ids[i]] == o
    {
      NewAreOwned(live, owner, o, n, fs, i);
    }
    forall id | id in owner' && owner'[id] == o ensures id in ids {
      assert id !in owner && id !in live && id in store;
    }
  }

  /** `b'` is `b` with `fs` installed for `o` under the ids from `n`. */
  ghost predicate IsPut(b: Book, b': Book, o: Owner, n: nat, fs: seq<Filter>) {
    && b'.live == Extend(b.live, n, fs) && b'.owner == Reassign(b'.live, b.owner, o)
    && b'.Ids(o) == Range(n, |fs|) && forall q :: q != o ==> b'.Ids(q) == b.Ids(q)
  }

  lemma PutIsPut(b: Book, o: Owner, n: nat, fs: seq<Filter>)
    ensures IsPut(b, b.Put(o, [], n, fs), o, n, fs)
  {
    assert [] + Range(n, |fs|) == Range(n, |fs|);
  }

  lemma PutCarries(b: Book, b': Book, want: Wish, want': Wish, o: Owner, n: nat, q: Owner)
    requires Tracks(b, want) && OnlyChanges(want, want', o) && IsPut(b, b', o, n, want'(o))
    requires want(o) == [] && forall id :: id in b.live ==> id < n
    ensures CarriesOwn(b', want', q)
  {
    assert CarriesOwn(b, want, o) && CarriesOwn(b, want, q);
    if q == o {
      CarriesNew(b.live, b.owner, o, n, want'(o));
    } else {
      CarriesStill(b.live, b.owner, o, n, want'(o), q, b.Ids(q), want(q));
    }
  }

  lemma PutTracks(b: Book, want: Wish, want': Wish, o: Owner, n: nat)
    requires Tracks(b, want) && OnlyChanges(want, want', o)
    requires want(o) == [] && forall id :: id in b.live ==> id < n
    ensures Tracks(b.Put(o, [], n, want'(o)), want')
  {
    var b' := b.Put(o, [], n, want'(o));
    PutIsPut(b, o, n, want'(o));
    forall q ensures CarriesOwn(b', want', q) {
      PutCarries(b, b', want, want', o, n, q);
    }
  }

  lemma CarriesKept(live: Store, owner: map<nat, Owner>, o: Owner, store: Store, gone: seq<nat>,
                    q: Owner, ids: seq<nat>, fs: seq<Filter>)
    requires owner.Keys == live.Keys && Carries(live, owner, q, ids, fs) && q != o
    requires Shrunk(store, live, gone) && forall id :: id in gone ==> id in owner && owner[id] == o
    ensures Carries(store, Reassign(store, owner, o), q, ids, fs)
  {
  }

  lemma CarriesNone(live: Store, owner: map<nat, Owner>, o: Owner, store: Store, gone: seq<nat>, fs: seq<Filter>)
    requires owner.Keys == live.Keys && Carries(live, owner, o, gone, fs)
    requires Shrunk(store, live, gone) && store.Keys !! set id | id in gone
    ensures Carries(store, Reassign(store, owner, o), o, [], [])
  {
  }

  lemma TakeTracks(b: Book, want: Wish, want': Wish, o: Owner, store: Store)
    requires Tracks(b, want) && OnlyChanges(want, want', o) && want'(o) == []
    requires Shrunk(store, b.live, b.Ids(o)) && store.Keys !! set id | id in b.Ids(o)
    ensures Tracks(b.Take(o, store), want')
  {
    var b' := b.Take(o, store);
    assert CarriesOwn(b, want, o);
    forall q ensures CarriesOwn(b', want', q) {
      assert CarriesOwn(b, want, q);
      if q == o {
        CarriesNone(b.live, b.owner, o, store, b.Ids(o), want(o));
        assert b'.Ids(o) == [];
      } else {
        CarriesKept(b.live, b.owner, o, store, b.Ids(o), q, b.Ids(q), want(q));
        assert b'.Ids(q) == b.Ids(q);
      }
    }
  }

  // ---------------------------------------------------------------------
  // What stays true however the store calls fail
  // ---------------------------------------------------------------------

  /** With the kill switch off nothing blocks everything. */
  lemma NoCatchAllWhenOff(b: Book, nextId: nat, layer: Layer)
    requires Sound(b, false, nextId)
    ensures CatchAll(layer) !in InForce(b.live)
  {
  }

  lemma SoundLater(b: Book, on: bool, n: nat, n': nat)
    requires Sound(b, on, n) && n <= n'
    ensures Sound(b, on, n')
  {
    forall q ensures NotesApart(b, n', q) {
      assert NotesApart(b, n, q);
    }
  }

  lemma PutSound(b: Book, on: bool, n: nat, o: Owner, known: seq<nat>, fs: seq<Filter>)
    requires Sound(b, on, n) && o != Base && forall id :: id in known ==> id in b.Ids(o)
    requires forall i :: 0 <= i < |fs| ==> fs[i].weight != 0
    ensures Sound(b.Put(o, known, n, fs), on, n + |fs|)
  {
    var b' := b.Put(o, known, n, fs);
    assert NotesApart(b, n, Base) && NotesApart(b, n, o);
    var n' := n + |fs|;
    forall q ensures NotesApart(b', n', q) {
      assert NotesApart(b, n, q);
      assert if q == o then b'.Ids(q) == known + Range(n, |fs|) else b'.Ids(q) == b.Ids(q);
    }
  }

  lemma BasePut(live: Store, n: nat)
    requires CatchAllsAreBase(live, []) && forall id :: id in live ==> id < n
    ensures BaseInForce(Extend(live, n, BaseFilters()), Range(n, |BaseFilters()|))
    ensures CatchAllsAreBase(Extend(live, n, BaseFilters()), Range(n, |BaseFilters()|))
  {
  }

  lemma BaseNotesApart(b: Book, b': Book, n: nat, n': nat, fs: seq<Filter>, q: Owner)
    requires NotesApart(b, n, q) && IsPut(b, b', Base, n, fs) && n' == n + |fs|
    ensures NotesApart(b', n', q)
  {
    assert b'.base == b'.Ids(Base);
  }

  lemma ExtendedBelow(live: Store, n: nat, fs: seq<Filter>)
    requires forall id :: id in live ==> id < n
    ensures forall id :: id in Extend(live, n, fs) ==> id < n + |fs|
  {
  }

  lemma PutBaseSound(b: Book, n: nat)
    requires Sound(b, false, n)
    ensures Sound(b.Put(Base, [], n, BaseFilters()), true, n + |BaseFilters()|)
  {
    PutIsPut(b, Base, n, BaseFilters());
    IsPutSound(b, b.Put(Base, [], n, BaseFilters()), n, n + |BaseFilters()|, BaseFilters());
  }

  lemma IsPutSound(b: Book, b': Book, n: nat, n': nat, fs: seq<Filter>)
    requires Sound(b, false, n) && fs == BaseFilters() && IsPut(b, b', Base, n, fs) && n' == n + |fs|
    ensures Sound(b', true, n')
  {
    BasePut(b.live, n);
    ExtendedBelow(b.live, n, fs);
    assert b'.base == b'.Ids(Base);
    forall q ensures NotesApart(b', n', q) {
      assert NotesApart(b, n, q);
      BaseNotesApart(b, b', n, n', fs, q);
    }
  }

  lemma TakeSound(b: Book, on: bool, n: nat, o: Owner, store: Store)
    requires Sound(b, on, n) && o != Base && Shrunk(store, b.live, b.Ids(o))
    ensures Sound(b.Take(o, store), on, n)
  {
    var b' := b.Take(o, store);
    assert NotesApart(b, n, o);
    forall q ensures NotesApart(b', n, q) {
      assert NotesApart(b, n, q);
      assert b'.Ids(q) == if q == o then [] else b.Ids(q);
    }
    if on {
      forall i | 0 <= i < |b.base| ensures b.base[i] in store && store[b.base[i]] == BaseFilters()[i] {
        assert b.base[i] in b.base;
      }
    }
  }

  /** Noting ids of an aborted transaction, or forgetting a note, is harmless. */
  lemma NoteSound(b: Book, on: bool, n: nat, n': nat, o: Owner, ids: seq<nat>)
    requires Sound(b, on, n) && o != Base && n <= n'
    requires forall id :: id in ids ==> id in b.Ids(o) || n <= id < n'
    ensures Sound(b.With(o, ids), on, n') && Sound(b.Without(o), on, n')
  {
    var b', b'' := b.With(o, ids), b.Without(o);
    assert NotesApart(b, n, o) && NotesApart(b, n, Base);
    forall q ensures NotesApart(b', n', q) && NotesApart(b'', n', q) {
      assert NotesApart(b, n, q);
      assert b'.Ids(q) == if q == o then ids else b.Ids(q);
      assert b''.Ids(q) == if q == o then [] else b.Ids(q);
    }
  }
}
