/** A run with working lookups in which a vote that surrounds an accepted one is accepted too. */
module VoteWitness {
  import opened Base
  import opened Votes

  const START := State(map[], map[], map[], {}, [], map[])

  /** Signed, looked up, active, past the grace period, saved. */
  const FINE := Env(true, true, true, GRACE_HEIGHT, 0, true, true, ActiveStatus, 0)

  function Spanning(a: Addr, source: nat, target: nat): Vote {
    Vote(a, "", "", source, target, [])
  }

  /** First from 10 to 20, then one epoch at a time from 26 on. */
  function VoteAt(a: Addr, i: nat): Vote {
    if i == 0 then Spanning(a, 10, 20) else Spanning(a, 25 + i, 26 + i)
  }

  function First(a: Addr, n: nat): (r: seq<Vote>)
    ensures |r| == n
  {
    if n == 0 then [] else First(a, n - 1) + [VoteAt(a, n - 1)]
  }

  function Events(a: Addr, n: nat): seq<(Vote, Env)> {
    if n == 0 then [] else Events(a, n - 1) + [(VoteAt(a, n - 1), FINE)]
  }

  lemma {:induction false} FirstAt(a: Addr, n: nat, i: nat)
    requires i < n
    ensures |First(a, n)| == n && First(a, n)[i] == VoteAt(a, i)
  {
    if n > 1 { FirstAt(a, n - 1, if i < n - 1 then i else 0); }
  }

  lemma {:induction false} AllFine(a: Addr, n: nat)
    ensures |Events(a, n)| == n && forall i | 0 <= i < n :: Events(a, n)[i].1 == FINE
  {
    if n > 0 { AllFine(a, n - 1); }
  }

  /** The state after the first n votes: all accepted, nobody jailed, and only their targets on file. */
  ghost predicate AllTaken(s: State, a: Addr, n: nat) {
    && KeptOk(s) && s.accepted == First(a, n) && Of(s.recorded, a) == First(a, n) && s.jailed == map[]
    && forall p | p in s.persisted :: n > 0 && (p.0 == 20 || 27 <= p.0 <= 25 + n)
  }

  lemma InRecent(votes: seq<Vote>, v: Vote) returns (i: nat)
    requires v in Recent(votes)
    ensures i < |votes| && votes[i] == v && |votes| <= i + MAX_KEPT
  {
    var j :| 0 <= j < |Recent(votes)| && Recent(votes)[j] == v;
    i := if |votes| > MAX_KEPT then |votes| - MAX_KEPT + j else j;
  }

  lemma NextIsTaken(s: State, a: Addr, n: nat)
    requires AllTaken(s, a, n)
    ensures AllTaken(Handle(s, VoteAt(a, n), FINE), a, n + 1)
  {
    var vote := VoteAt(a, n);
    forall prev | prev in Recent(Of(s.recorded, a)) ensures !Conflict(vote, prev) {
      var i := InRecent(First(a, n), prev);
      FirstAt(a, n, i);
    }
    AcceptsIff(s, vote, FINE);
    HandleKeepsKeptOk(s, vote, FINE);
    TakenEffect(s, vote, FINE);
  }

  lemma TakenEffect(s: State, vote: Vote, env: Env)
    requires env.height >= GRACE_HEIGHT && s.jailed == map[] && Handle(s, vote, env).accepted == s.accepted + [vote]
    ensures var t := Handle(s, vote, env);
            && t.jailed == map[] && Of(t.recorded, vote.validator) == Of(s.recorded, vote.validator) + [vote]
            && t.persisted == s.persisted + {(vote.targetEpoch, vote.validator)}
  {
  }

  lemma RunGoesOn(events: seq<(Vote, Env)>, vote: Vote, env: Env)
    ensures Run(START, events + [(vote, env)]) == Handle(Run(START, events), vote, env)
  {
    assert (events + [(vote, env)])[..|events|] == events;
  }

  lemma {:induction false} FirstAreTaken(a: Addr, n: nat) returns (s: State)
    ensures s == Run(START, Events(a, n)) && AllTaken(s, a, n)
  {
    if n == 0 {
      s := START;
    } else {
      s := FirstAreTaken(a, n - 1);
      NextIsTaken(s, a, n - 1);
      RunGoesOn(Events(a, n - 1), VoteAt(a, n - 1), FINE);
      s := Handle(s, VoteAt(a, n - 1), FINE);
    }
  }

  lemma WindowDecides(a: Addr, n: nat, last: Vote)
    requires n > 0 && last == Spanning(a, 5, 25)
    ensures n > MAX_KEPT <==> forall prev | prev in Recent(First(a, n)) :: !Conflict(last, prev)
  {
    FirstAt(a, n, 0);
    if n <= MAX_KEPT {
      assert VoteAt(a, 0) in Recent(First(a, n)) && Conflict(last, VoteAt(a, 0));
    } else {
      forall prev | prev in Recent(First(a, n)) ensures !Conflict(last, prev) {
        var i := InRecent(First(a, n), prev);
        FirstAt(a, n, i);
      }
    }
  }

  lemma LastIsTakenIff(s: State, a: Addr, n: nat, last: Vote)
    requires n > 0 && AllTaken(s, a, n) && last == Spanning(a, 5, 25)
    ensures n > MAX_KEPT <==> Handle(s, last, FINE).accepted == First(a, n) + [last]
  {
    WindowDecides(a, n, last);
    AcceptsIff(s, last, FINE);
  }

  lemma LookupsWork(a: Addr, n: nat, events: seq<(Vote, Env)>, last: Vote)
    requires events == Events(a, n) + [(last, FINE)]
    ensures forall i | 0 <= i < |events| :: events[i].1.lookupOk
  {
    AllFine(a, n);
  }

  /**
   * A vote from 5 to 25 surrounds the first one. After n votes it is accepted if and only if the first one
   * has left the window of a thousand; in that run every lookup works, and all accepted targets differ.
   */
  lemma SurroundIsAcceptedIff(a: Addr, n: nat, last: Vote, events: seq<(Vote, Env)>)
    requires n > 0 && last == Spanning(a, 5, 25) && events == Events(a, n) + [(last, FINE)]
    ensures Initial(START) && forall i | 0 <= i < |events| :: events[i].1.lookupOk
    ensures Surrounds(last, VoteAt(a, 0))
    ensures n > 1000 <==> Run(START, events).accepted == First(a, n) + [last]
    ensures AcceptedOk(Run(START, events))
  {
    var s := FirstAreTaken(a, n);
    LastIsTakenIff(s, a, n, last);
    LookupsWork(a, n, events, last);
    RunGoesOn(Events(a, n), last, FINE);
    AcceptedVotesAreDistinct(START, events);
  }
}
