/** Two machines connecting to each other: each may dial and accept at once, and
    the duplicate connections are resolved the same way on both sides. */
module Peers {
  import opened Collections
  import opened Registers

  type Conn = nat

  /** Room for connections accepted and not yet looked at. */
  const INBOUND_CAP := 4

  /** One machine's task for the other: the connection it holds, whether it
      dialed it, and the accepted connections waiting. */
  datatype Side = Side(local: EndpointId, peer: EndpointId, conn: Option<Conn>, outbound: bool, inbound: seq<Conn>)

  /** The connection a side keeps against a newly accepted one: its own dial if
      it has the lower id, the new one otherwise. */
  predicate KeepsHeld(s: Side) {
    s.outbound && s.local < s.peer
  }

  /** Taking the first waiting connection while holding one. */
  function TieBreak(s: Side): Side
    requires s.conn.Some? && s.inbound != []
  {
    if KeepsHeld(s) then s.(inbound := s.inbound[1..])
    else s.(conn := Some(s.inbound[0]), outbound := false, inbound := s.inbound[1..])
  }

  /** The duplicate a tie-break closes. */
  function Loser(s: Side): Conn
    requires s.conn.Some? && s.inbound != []
  {
    if KeepsHeld(s) then s.inbound[0] else s.conn.value
  }

  /** The task of one machine for one peer. */
  class PeerTask {
    const local: EndpointId
    const peer: EndpointId
    var conn: Option<Conn>
    var outbound: bool
    var inbound: seq<Conn>

    function Value(): Side
      reads this
    {
      Side(local, peer, conn, outbound, inbound)
    }

    constructor (local: EndpointId, peer: EndpointId)
      ensures Value() == Side(local, peer, None, false, [])
    {
      this.local, this.peer, conn, outbound, inbound := local, peer, None, false, [];
    }

    /** Queues an accepted connection, refusing a surplus one. */
    method RouteInbound(new_: Conn) returns (queued: bool)
      modifies `inbound
      ensures queued == (|old(inbound)| < INBOUND_CAP)
      ensures inbound == if queued then old(inbound) + [new_] else old(inbound)
    {
      if |inbound| >= INBOUND_CAP { return false; }
      inbound := inbound + [new_];
      queued := true;
    }

    /** Takes the first waiting connection while holding one, returning the
        duplicate it closed. */
    method ResolveDuplicate() returns (closed: Conn)
      requires conn.Some? && inbound != []
      modifies this
      ensures Value() == TieBreak(old(Value())) && closed == Loser(old(Value()))
    {
      var next := inbound[0];
      inbound := inbound[1..];
      if outbound && local < peer {
        closed := next;
      } else {
        closed := conn.value;
        conn := Some(next);
        outbound := false;
      }
    }

    /** Adopts the first waiting connection. */
    method Adopt()
      requires conn.None? && inbound != []
      modifies this
      ensures Value() == old(Value()).(conn := Some(old(inbound)[0]), outbound := false, inbound := old(inbound)[1..])
    {
      conn, outbound, inbound := Some(inbound[0]), false, inbound[1..];
    }
  }

  // The two tasks together.

  /** The two sides; who dialed each connection, which were closed, which were
      dialed and have not reached the other side yet, and which ones each side
      has consumed. */
  datatype Pair = Pair(
    one: Side, other: Side, dialer: map<Conn, EndpointId>, closed: set<Conn>, arriving: set<Conn>,
    oneSeen: set<Conn>, otherSeen: set<Conn>)

  /** The same pair with the two sides swapped. */
  function Swap(p: Pair): Pair {
    Pair(p.other, p.one, p.dialer, p.closed, p.arriving, p.otherSeen, p.oneSeen)
  }

  /** The first side completes a dial while it holds nothing. */
  ghost predicate Dials(p: Pair, q: Pair, c: Conn) {
    && p.one.conn.None? && c !in p.dialer
    && q == p.(one := p.one.(conn := Some(c), outbound := true), dialer := p.dialer[c := p.one.local],
               arriving := p.arriving + {c}, oneSeen := p.oneSeen + {c})
  }

  /** The first side gives up a dial that reaches the other side all the same. */
  ghost predicate Abandons(p: Pair, q: Pair, c: Conn) {
    && c !in p.dialer
    && q == p.(dialer := p.dialer[c := p.one.local], closed := p.closed + {c}, arriving := p.arriving + {c})
  }

  /** A connection the other side dialed reaches the first side: queued, or
      closed when the queue is full. */
  ghost predicate Arrives(p: Pair, q: Pair, c: Conn) {
    && c in p.arriving && c in p.dialer && p.dialer[c] == p.other.local
    && if |p.one.inbound| < INBOUND_CAP
       then q == p.(one := p.one.(inbound := p.one.inbound + [c]), arriving := p.arriving - {c})
       else q == p.(closed := p.closed + {c}, arriving := p.arriving - {c})
  }

  /** The first side, holding nothing, adopts its first waiting connection. */
  ghost predicate Adopts(p: Pair, q: Pair) {
    && p.one.conn.None? && p.one.inbound != []
    && q == p.(one := p.one.(conn := Some(p.one.inbound[0]), outbound := false, inbound := p.one.inbound[1..]),
               oneSeen := p.oneSeen + {p.one.inbound[0]})
  }

  /** The first side resolves a duplicate. */
  ghost predicate Resolves(p: Pair, q: Pair) {
    && p.one.conn.Some? && p.one.inbound != []
    && q == p.(one := TieBreak(p.one), closed := p.closed + {Loser(p.one)},
               oneSeen := p.oneSeen + {p.one.inbound[0]})
  }

  /** The first side notices that its connection closed. */
  ghost predicate Notices(p: Pair, q: Pair) {
    && p.one.conn.Some? && p.one.conn.value in p.closed
    && q == p.(one := p.one.(conn := None, outbound := false))
  }

  ghost predicate SideStep(p: Pair, q: Pair) {
    || (exists c :: Dials(p, q, c))
    || (exists c :: Abandons(p, q, c))
    || (exists c :: Arrives(p, q, c))
    || Adopts(p, q) || Resolves(p, q) || Notices(p, q)
  }

  /** The network loses a connection. */
  ghost predicate Loses(p: Pair, q: Pair, c: Conn) {
    q == p.(closed := p.closed + {c})
  }

  ghost predicate Step(p: Pair, q: Pair) {
    SideStep(p, q) || SideStep(Swap(p), Swap(q)) || exists c :: Loses(p, q, c)
  }

  // What every run keeps.

  /** Whatever the first side consumed it holds, or it is closed; what it holds
      and what waits are known connections of the right direction. */
  ghost predicate SideInv(p: Pair) {
    && (forall c :: c in p.oneSeen ==> p.one.conn == Some(c) || c in p.closed)
    && (p.one.conn.Some? ==> p.one.conn.value in p.oneSeen)
    && (p.one.conn.Some? && p.one.conn.value in p.dialer ==>
          (p.one.outbound <==> p.dialer[p.one.conn.value] == p.one.local))
    && (forall c :: c in p.one.inbound ==> c in p.dialer && p.dialer[c] == p.other.local)
    && (forall c :: c in p.oneSeen ==> c in p.dialer)
    && (forall c :: c in p.dialer && p.dialer[c] == p.one.local ==> c in p.oneSeen || c in p.closed)
    && (forall c :: c in p.dialer && p.dialer[c] == p.other.local ==>
          c in p.oneSeen || c in p.closed || c in p.arriving || c in p.one.inbound)
  }

  ghost predicate Ends(p: Pair) {
    && p.one.local != p.other.local && p.one.peer == p.other.local && p.other.peer == p.one.local
    && (forall c :: c in p.dialer ==> p.dialer[c] == p.one.local || p.dialer[c] == p.other.local)
  }

  ghost predicate Inv(p: Pair) {
    Ends(p) && SideInv(p) && SideInv(Swap(p))
  }

  lemma TailMembers(s: seq<Conn>)
    requires s != []
    ensures forall c :: c in s <==> c == s[0] || c in s[1..]
  {
    assert s == [s[0]] + s[1..];
  }

  lemma DialsKeeps(p: Pair, q: Pair, c: Conn)
    requires Inv(p) && (Dials(p, q, c) || Abandons(p, q, c))
    ensures Inv(q)
  {
  }

  lemma ArrivesKeeps(p: Pair, q: Pair, c: Conn)
    requires Inv(p) && Arrives(p, q, c)
    ensures Inv(q)
  {
    assert forall x :: x in p.one.inbound + [c] <==> x in p.one.inbound || x == c;
  }

  lemma TakesKeeps(p: Pair, q: Pair)
    requires Inv(p) && (Adopts(p, q) || Resolves(p, q))
    ensures Inv(q)
  {
    TailMembers(p.one.inbound);
  }

  lemma SideStepKeeps(p: Pair, q: Pair)
    requires Inv(p) && SideStep(p, q)
    ensures Inv(q)
  {
    if Notices(p, q) {
    } else {
      hide Inv, Dials, Abandons, Arrives, Adopts, Resolves;
      if c :| Dials(p, q, c) || Abandons(p, q, c) {
        DialsKeeps(p, q, c);
      } else if c :| Arrives(p, q, c) {
        ArrivesKeeps(p, q, c);
      } else {
        TakesKeeps(p, q);
      }
    }
  }

  lemma StepKeeps(p: Pair, q: Pair)
    requires Inv(p) && Step(p, q)
    ensures Inv(q)
  {
    if SideStep(p, q) {
      SideStepKeeps(p, q);
    } else if SideStep(Swap(p), Swap(q)) {
      SwapKeeps(p);
      SideStepKeeps(Swap(p), Swap(q));
      SwapKeeps(Swap(q));
    } else {
      var c :| Loses(p, q, c);
    }
  }

  lemma SwapKeeps(p: Pair)
    requires Inv(p)
    ensures Inv(Swap(p)) && Swap(Swap(p)) == p
  {
    hide SideInv;
  }

  ghost predicate Start(p: Pair) {
    && Ends(p) && p.one == Side(p.one.local, p.one.peer, None, false, [])
    && p.other == Side(p.other.local, p.other.peer, None, false, [])
    && p.dialer == map[] && p.closed == {} && p.arriving == {} && p.oneSeen == {} && p.otherSeen == {}
  }

  ghost predicate Run(run: seq<Pair>) {
    run != [] && Start(run[0]) && forall i: nat :: i + 1 < |run| ==> Step(run[i], run[i + 1])
  }

  /** Every connection a side consumed is the one it holds, or is closed. */
  lemma {:induction false} ConsumedHeldOrClosed(run: seq<Pair>, n: nat)
    requires Run(run) && n < |run|
    ensures Inv(run[n])
    ensures forall c :: c in run[n].oneSeen ==> run[n].one.conn == Some(c) || c in run[n].closed
    ensures forall c :: c in run[n].otherSeen ==> run[n].other.conn == Some(c) || c in run[n].closed
  {
    hide Step;
    if n == 0 {
    } else {
      ConsumedHeldOrClosed(run, n - 1);
      assert Step(run[n - 1], run[n - 1 + 1]);
      StepKeeps(run[n - 1], run[n]);
    }
  }

  /** A tie-break between a connection each side dialed closes the one the higher
      id dialed, on whichever side it happens: never both, and never the lower
      id's own dial. */
  lemma TieBreakSparesLower(p: Pair, q: Pair)
    requires Inv(p) && Resolves(p, q)
    requires p.dialer[p.one.conn.value] != p.dialer[p.one.inbound[0]]
    ensures p.dialer[Loser(p.one)] == if p.one.local < p.one.peer then p.one.peer else p.one.local
    ensures p.one.local < p.one.peer ==> q.one.conn == p.one.conn
    ensures q.one.conn.Some? && q.one.conn.value != Loser(p.one)
  {
  }

  /** The lower id never closes a connection it dialed for one it accepted. */
  lemma LowerKeepsItsDial(p: Pair, q: Pair)
    requires Inv(p) && Resolves(p, q) && p.one.local < p.one.peer
    requires p.dialer[p.one.conn.value] == p.one.local && p.one.conn.value !in p.closed
    ensures q.one.conn == p.one.conn && q.one.conn.value !in q.closed
  {
    TailMembers(p.one.inbound);
  }

  /** When both sides hold live connections and nothing waits or is on its way,
      they hold the same one. */
  lemma BothHoldTheSame(run: seq<Pair>, n: nat)
    requires Run(run) && n < |run|
    requires run[n].one.conn.Some? && run[n].one.conn.value !in run[n].closed
    requires run[n].other.conn.Some? && run[n].other.conn.value !in run[n].closed
    requires run[n].one.inbound == [] && run[n].other.inbound == [] && run[n].arriving == {}
    ensures run[n].one.conn == run[n].other.conn
  {
    ConsumedHeldOrClosed(run, n);
  }

  /** Both sides hold the connection, and nothing waits or is on its way. */
  ghost predicate Agreed(p: Pair, c: Conn) {
    && p.one.conn == Some(c) && p.other.conn == Some(c)
    && p.one.inbound == [] && p.other.inbound == [] && p.arriving == {}
  }

  lemma SideLeavesAgreed(p: Pair, q: Pair, c: Conn)
    requires Inv(p) && SideStep(p, q) && c !in p.closed && Agreed(p, c)
    ensures q.one.conn == Some(c) && q.other.conn == Some(c) && c !in q.closed
  {
  }

  /** A connection both sides hold stays held by both, and open, through every step
      of either side, until the network loses it or something dialed before
      arrives. */
  lemma AgreementIsStable(p: Pair, q: Pair, c: Conn)
    requires Inv(p) && Step(p, q) && c !in p.closed && Agreed(p, c)
    ensures q.one.conn == Some(c) && q.other.conn == Some(c)
    ensures c !in q.closed || Loses(p, q, c)
  {
    hide SideStep, Inv;
    if SideStep(p, q) {
      SideLeavesAgreed(p, q, c);
    } else if SideStep(Swap(p), Swap(q)) {
      SwapKeeps(p);
      SideLeavesAgreed(Swap(p), Swap(q), c);
    }
  }
}
