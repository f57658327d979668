/** The announcements a hub remembers for names not registered here: what a clone
    resolves against. */
module Orphans {
  import opened Collections
  import opened Registers
  import opened Inbox
  import Sorted

  /** Unregistered names tracked per peer: one peer's names never push out those of
      another. */
  const MAX_ORPHAN_REPOS_PER_PEER := 64

  datatype Orphan = Orphan(id: RepoId, heads: Heads)

  type Orphanage = map<Name, map<Peer, Orphan>>

  function Held(o: Orphanage, n: Name, p: Peer): Option<Orphan> {
    if n in o && p in o[n] then Some(o[n][p]) else None
  }

  function NamesOf(o: Orphanage, p: Peer): set<Name> {
    set n | n in o && p in o[n]
  }

  /** No name without a peer, and no peer past its cap. */
  ghost predicate OrphansValid(o: Orphanage) {
    (forall n :: n in o ==> o[n] != map[]) && forall p :: |NamesOf(o, p)| <= MAX_ORPHAN_REPOS_PER_PEER
  }

  predicate HasRoom(o: Orphanage, p: Peer, n: Name) {
    Held(o, n, p).Some? || |NamesOf(o, p)| < MAX_ORPHAN_REPOS_PER_PEER
  }

  function Remembered(o: Orphanage, p: Peer, n: Name, a: Orphan): Orphanage {
    if HasRoom(o, p, n) then o[n := (if n in o then o[n] else map[])[p := a]] else o
  }

  function Dropped(o: Orphanage, n: Name, p: Peer): Orphanage {
    if n !in o then o
    else if o[n].Keys <= {p} then o - {n}
    else o[n := o[n] - {p}]
  }

  function DroppedPeer(o: Orphanage, p: Peer): Orphanage {
    map n | n in o && !(o[n].Keys <= {p}) :: o[n] - {p}
  }

  lemma RememberedEntries(o: Orphanage, p: Peer, n: Name, a: Orphan)
    ensures forall m, q :: Held(Remembered(o, p, n, a), m, q) ==
                           if m == n && q == p && HasRoom(o, p, n) then Some(a) else Held(o, m, q)
    ensures Remembered(o, p, n, a).Keys <= o.Keys + {n}
    ensures HasRoom(o, p, n) ==> p in Remembered(o, p, n, a)[n]
    ensures forall m :: m in o && m != n ==> Remembered(o, p, n, a)[m] == o[m]
  {
    hide HasRoom;
  }

  lemma NamesHeld(o: Orphanage, q: Peer)
    ensures forall m :: m in NamesOf(o, q) <==> Held(o, m, q).Some?
  {
  }

  /** Remembering an announcement touches that peer's entry for that name only; it is
      refused exactly for a new name of a peer at its cap. */
  lemma RememberedExact(o: Orphanage, p: Peer, n: Name, a: Orphan)
    requires OrphansValid(o)
    ensures OrphansValid(Remembered(o, p, n, a))
    ensures forall m, q :: Held(Remembered(o, p, n, a), m, q) ==
                           if m == n && q == p && HasRoom(o, p, n) then Some(a) else Held(o, m, q)
    ensures Remembered(o, p, n, a).Keys <= o.Keys + {n}
  {
    hide Remembered, NamesOf, Held;
    RememberedEntries(o, p, n, a);
    var r := Remembered(o, p, n, a);
    forall q ensures |NamesOf(r, q)| <= MAX_ORPHAN_REPOS_PER_PEER {
      NamesHeld(o, q);
      NamesHeld(r, q);
      SubsetSize(NamesOf(r, q), NamesOf(o, q) + if q == p && HasRoom(o, p, n) then {n} else {});
      if Held(o, n, p).Some? || q != p || !HasRoom(o, p, n) {
        SubsetSize(NamesOf(r, q), NamesOf(o, q));
      }
    }
    NoEmptyName(o, p, n, a);
  }

  lemma NoEmptyName(o: Orphanage, p: Peer, n: Name, a: Orphan)
    requires forall m :: m in o ==> o[m] != map[]
    ensures forall m :: m in Remembered(o, p, n, a) ==> Remembered(o, p, n, a)[m] != map[]
  {
    hide HasRoom;
    RememberedEntries(o, p, n, a);
  }

  lemma FewerNames(o: Orphanage, r: Orphanage)
    requires OrphansValid(o) && forall m, q :: Held(r, m, q).Some? ==> Held(o, m, q).Some?
    requires forall n :: n in r ==> r[n] != map[]
    ensures OrphansValid(r)
  {
    forall q ensures |NamesOf(r, q)| <= MAX_ORPHAN_REPOS_PER_PEER {
      forall m | m in NamesOf(r, q) ensures m in NamesOf(o, q) {
        assert Held(r, m, q).Some?;
      }
      SubsetSize(NamesOf(r, q), NamesOf(o, q));
    }
  }

  /** Dropping an entry, or all of a peer's, touches nothing else. */
  lemma DroppedExact(o: Orphanage, n: Name, p: Peer)
    requires OrphansValid(o)
    ensures OrphansValid(Dropped(o, n, p)) && OrphansValid(DroppedPeer(o, p)) && OrphansValid(o - {n})
    ensures forall m, q :: Held(Dropped(o, n, p), m, q) == if m == n && q == p then None else Held(o, m, q)
    ensures forall m, q :: Held(DroppedPeer(o, p), m, q) == if q == p then None else Held(o, m, q)
    ensures forall m, q :: Held(o - {n}, m, q) == if m == n then None else Held(o, m, q)
  {
    DroppedStored(o, n, p);
    FewerNames(o, Dropped(o, n, p));
    FewerNames(o, DroppedPeer(o, p));
    FewerNames(o, o - {n});
  }

  lemma DroppedStored(o: Orphanage, n: Name, p: Peer)
    requires OrphansValid(o)
    ensures forall m, q :: Held(Dropped(o, n, p), m, q) == if m == n && q == p then None else Held(o, m, q)
    ensures forall m, q :: Held(DroppedPeer(o, p), m, q) == if q == p then None else Held(o, m, q)
    ensures forall m, q :: Held(o - {n}, m, q) == if m == n then None else Held(o, m, q)
    ensures forall m :: m in Dropped(o, n, p) ==> Dropped(o, n, p)[m] != map[]
    ensures forall m :: m in DroppedPeer(o, p) ==> DroppedPeer(o, p)[m] != map[]
  {
    forall m | m in o && !(o[m].Keys <= {p}) ensures o[m] - {p} != map[] {
      var q :| q in o[m] && q != p;
      assert q in o[m] - {p};
    }
  }

  /** The announcements of several peers for one name, remembered in turn. */
  function RememberedAll(o: Orphanage, known: seq<(Peer, Heads)>, n: Name, id: RepoId): Orphanage
    decreases |known|
  {
    if known == [] then o
    else
      var last := known[|known| - 1];
      Remembered(RememberedAll(o, known[..|known| - 1], n, id), last.0, n, Orphan(id, last.1))
  }

  lemma {:induction false} RememberedAllValid(o: Orphanage, known: seq<(Peer, Heads)>, n: Name, id: RepoId)
    requires OrphansValid(o)
    ensures OrphansValid(RememberedAll(o, known, n, id)) && RememberedAll(o, known, n, id).Keys <= o.Keys + {n}
    ensures forall m, q :: m != n ==> Held(RememberedAll(o, known, n, id), m, q) == Held(o, m, q)
    decreases |known|
  {
    hide Remembered, OrphansValid;
    if known != [] {
      var init, last := known[..|known| - 1], known[|known| - 1];
      RememberedAllValid(o, init, n, id);
      RememberedExact(RememberedAll(o, init, n, id), last.0, n, Orphan(id, last.1));
    }
  }

  lemma SameRoom(o: Orphanage, r: Orphanage, q: Peer, n: Name)
    requires forall m :: Held(r, m, q) == Held(o, m, q)
    ensures HasRoom(r, q, n) == HasRoom(o, q, n)
  {
    NamesHeld(o, q);
    NamesHeld(r, q);
    assert NamesOf(o, q) == NamesOf(r, q);
  }

  /** A peer without announcements among those remembered keeps its entries. */
  lemma {:induction false} OthersKept(o: Orphanage, known: seq<(Peer, Heads)>, n: Name, id: RepoId, q: Peer)
    requires OrphansValid(o) && forall k :: k in known ==> k.0 != q
    ensures forall m :: Held(RememberedAll(o, known, n, id), m, q) == Held(o, m, q)
    decreases |known|
  {
    hide Remembered, OrphansValid;
    if known != [] {
      var init, last := known[..|known| - 1], known[|known| - 1];
      assert last in known;
      OthersKept(o, init, n, id, q);
      RememberedAllValid(o, init, n, id);
      RememberedExact(RememberedAll(o, init, n, id), last.0, n, Orphan(id, last.1));
    }
  }

  ghost predicate KnownOnce(known: seq<(Peer, Heads)>) {
    forall i, j :: 0 <= i < j < |known| ==> known[i].0 != known[j].0
  }

  /** Each remembered announcement of a peer with room for it is held afterwards. */
  lemma {:induction false} KnownHeld(o: Orphanage, known: seq<(Peer, Heads)>, n: Name, id: RepoId, i: nat)
    requires OrphansValid(o) && KnownOnce(known) && i < |known|
    ensures Held(RememberedAll(o, known, n, id), n, known[i].0) ==
            if HasRoom(o, known[i].0, n) then Some(Orphan(id, known[i].1)) else Held(o, n, known[i].0)
    decreases |known|
  {
    hide Remembered, OrphansValid, HasRoom, Held;
    var init, last := known[..|known| - 1], known[|known| - 1];
    var before := RememberedAll(o, init, n, id);
    RememberedAllValid(o, init, n, id);
    RememberedExact(before, last.0, n, Orphan(id, last.1));
    if i < |init| {
      KnownHeld(o, init, n, id, i);
    } else {
      OthersKept(o, init, n, id, last.0);
      SameRoom(o, before, last.0, n);
    }
  }

  /** The announcements that contest a registration. */
  function Contested(o: Orphanage, n: Name, id: RepoId): map<Peer, RepoId> {
    if n !in o then map[] else map p | p in o[n] && o[n][p].id != id :: o[n][p].id
  }

  lemma {:induction false} RememberedUnder(o: Orphanage, known: seq<(Peer, Heads)>, n: Name, id: RepoId, q: Peer)
    requires OrphansValid(o) && n !in o
    ensures var h := Held(RememberedAll(o, known, n, id), n, q); h.Some? ==> h.value.id == id
    decreases |known|
  {
    hide Remembered, OrphansValid;
    if known != [] {
      var init, last := known[..|known| - 1], known[|known| - 1];
      RememberedUnder(o, init, n, id, q);
      RememberedAllValid(o, init, n, id);
      RememberedExact(RememberedAll(o, init, n, id), last.0, n, Orphan(id, last.1));
    }
  }

  /** A repo unregistered and registered again under its id is contested by nobody:
      what its peers had announced is what it is. */
  lemma RejoinsUncontested(o: Orphanage, known: seq<(Peer, Heads)>, n: Name, id: RepoId)
    requires OrphansValid(o) && n !in o
    ensures Contested(RememberedAll(o, known, n, id), n, id) == map[]
  {
    hide RememberedAll, OrphansValid;
    var all: Orphanage := RememberedAll(o, known, n, id);
    forall q: Peer | n in all && q in all[n] ensures all[n][q].id == id {
      RememberedUnder(o, known, n, id, q);
    }
  }

  /** Exactly the orphans of the name under another id contest a registration. */
  lemma ContestedExact(o: Orphanage, n: Name, id: RepoId, p: Peer)
    ensures var h := Held(o, n, p);
            && (p in Contested(o, n, id) <==> h.Some? && h.value.id != id)
            && (p in Contested(o, n, id) ==> Contested(o, n, id)[p] == h.value.id)
  {
  }

  /** The announcements of one name by connected peers, in the order read. */
  function SourcesOf(known: map<Peer, Orphan>, connected: set<Peer>, peers: seq<Peer>): seq<(Peer, Orphan)>
    requires forall p :: p in peers ==> p in known
    decreases |peers|
  {
    if peers == [] then []
    else
      var p := peers[|peers| - 1];
      SourcesOf(known, connected, peers[..|peers| - 1]) + if p in connected then [(p, known[p])] else []
  }

  lemma {:induction false} SourcesExact(known: map<Peer, Orphan>, connected: set<Peer>, peers: seq<Peer>)
    requires forall p :: p in peers ==> p in known
    ensures forall s :: s in SourcesOf(known, connected, peers) <==>
                        s.0 in peers && s.0 in connected && s.1 == known[s.0]
    decreases |peers|
  {
    if peers != [] {
      SourcesExact(known, connected, peers[..|peers| - 1]);
      assert forall p :: p in peers <==> p in peers[..|peers| - 1] || p == peers[|peers| - 1];
    }
  }

  lemma SourcesOneMore(known: map<Peer, Orphan>, connected: set<Peer>, peers: seq<Peer>, i: nat)
    requires (forall p :: p in peers ==> p in known) && i < |peers|
    ensures SourcesOf(known, connected, peers[..i + 1]) ==
            SourcesOf(known, connected, peers[..i])
            + if peers[i] in connected then [(peers[i], known[peers[i]])] else []
    ensures SourcesOf(known, connected, []) == []
  {
    assert peers[..i + 1][..i] == peers[..i];
  }

  function HeadsOf(sources: seq<(Peer, Orphan)>): (r: seq<(Peer, Heads)>)
    ensures |r| == |sources| && forall i :: 0 <= i < |r| ==> r[i] == (sources[i].0, sources[i].1.heads)
  {
    seq(|sources|, i requires 0 <= i < |sources| => (sources[i].0, sources[i].1.heads))
  }

  /** Resolving a clone: the id every connected announcing peer agrees on, and what
      each announces. It fails when there is none or when they disagree. */
  method Resolve(known: map<Peer, Orphan>, connected: set<Peer>) returns (r: Result<(RepoId, seq<(Peer, Heads)>)>)
    ensures r.Ok? <==> && (exists p :: p in known && p in connected)
                       && forall p, q :: p in known && p in connected && q in known && q in connected ==>
                                         known[p].id == known[q].id
    ensures r.Ok? ==> forall p, hs :: (p, hs) in r.value.1 <==>
                                      p in known && p in connected && known[p] == Orphan(r.value.0, hs)
  {
    hide SourcesOf, Sorted.Keys;
    var keys := Sorted.Keys(known.Keys);
    Sorted.KeysEnumerate(known.Keys);
    var sources: seq<(Peer, Orphan)> := [];
    NoSources(known, connected);
    for i := 0 to |keys|
      invariant sources == SourcesOf(known, connected, keys[..i])
    {
      SourcesOneMore(known, connected, keys, i);
      if keys[i] in connected {
        sources := sources + [(keys[i], known[keys[i]])];
      }
    }
    assert keys[..|keys|] == keys;
    SourcesExact(known, connected, keys);
    ReadSources(known, connected, sources);
    if sources == [] { return Err; }
    var id := sources[0].1.id;
    if exists s :: s in sources && s.1.id != id { return Err; }
    AgreedSources(known, connected, sources, id);
    r := Ok((id, HeadsOf(sources)));
  }

  lemma NoSources(known: map<Peer, Orphan>, connected: set<Peer>)
    ensures SourcesOf(known, connected, []) == []
  {
  }

  lemma ReadSources(known: map<Peer, Orphan>, connected: set<Peer>, sources: seq<(Peer, Orphan)>)
    requires forall s :: s in sources <==> s.0 in known && s.0 in connected && s.1 == known[s.0]
    ensures sources == [] <==> !exists p :: p in known && p in connected
    ensures sources != [] ==> sources[0] in sources
    ensures forall p :: p in known && p in connected ==> (p, known[p]) in sources
  {
    forall p | p in known && p in connected ensures (p, known[p]) in sources {
      assert (p, known[p]).0 == p && (p, known[p]).1 == known[p];
    }
    if sources != [] {
      assert sources[0] in sources;
      assert sources[0].0 in known && sources[0].0 in connected;
    }
  }

  lemma AgreedSources(known: map<Peer, Orphan>, connected: set<Peer>, sources: seq<(Peer, Orphan)>, id: RepoId)
    requires forall s :: s in sources <==> s.0 in known && s.0 in connected && s.1 == known[s.0]
    requires forall s :: s in sources ==> s.1.id == id
    ensures forall p, hs :: (p, hs) in HeadsOf(sources) <==>
                            p in known && p in connected && known[p] == Orphan(id, hs)
  {
    forall p, hs ensures (p, hs) in HeadsOf(sources) <==> p in known && p in connected && known[p] == Orphan(id, hs) {
      if (p, hs) in HeadsOf(sources) {
        var i :| 0 <= i < |sources| && HeadsOf(sources)[i] == (p, hs);
        assert sources[i] in sources;
      }
      if p in known && p in connected && known[p] == Orphan(id, hs) {
        assert (p, known[p]) in sources;
        var i :| 0 <= i < |sources| && sources[i] == (p, known[p]);
        assert HeadsOf(sources)[i] == (p, hs);
      }
    }
  }
}
