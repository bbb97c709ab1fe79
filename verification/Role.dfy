/** The role checker as one object (internal/role/role.go): what one probe, one subscription and one cancel do to its
    fields, to its subscribers and to the registry. RoleGate interleaves the same statements. */
module Role {
  import opened Text
  import opened RoleGate
  import opened Health
  import opened Metrics

  /** A channel of capacity one. */
  class Chan {
    ghost const id: nat
    var full: bool

    constructor (ghost id: nat)
      ensures !full && this.id == id
    {
      this.id := id;
      full := false;
    }

    /** select { case ch <- struct{}{}: default: } */
    method TrySend()
      modifies this
      ensures full
    {
      if !full {
        full := true;
      }
    }
  }

  ghost function Ids(waiters: seq<Chan>): (ids: seq<nat>)
    ensures |ids| == |waiters| && forall i | 0 <= i < |ids| :: ids[i] == waiters[i].id
  {
    seq(|waiters|, i requires 0 <= i < |waiters| => waiters[i].id)
  }

  /** The subscribed channels that hold a token. */
  ghost function Tokens(waiters: seq<Chan>): set<nat>
    reads waiters
  {
    if waiters == [] then {}
    else Tokens(waiters[..|waiters| - 1]) + (if waiters[|waiters| - 1].full then {waiters[|waiters| - 1].id} else {})
  }

  lemma Snoc(waiters: seq<Chan>, ch: Chan)
    ensures Ids(waiters + [ch]) == Ids(waiters) + [ch.id]
    ensures Tokens(waiters + [ch]) == Tokens(waiters) + (if ch.full then {ch.id} else {})
    ensures Members(Ids(waiters) + [ch.id]) == Members(Ids(waiters)) + {ch.id}
  {
    assert (waiters + [ch])[..|waiters|] == waiters;
  }

  // When all channels hold tokens, these are what the protocol calls the members of the list.
  lemma {:induction false} TokensOfAll(waiters: seq<Chan>)
    ensures Tokens(waiters) <= Members(Ids(waiters))
    ensures Tokens(waiters) + Members(Ids(waiters)) == Members(Ids(waiters))
    ensures (forall ch | ch in waiters :: ch.full) ==> Tokens(waiters) == Members(Ids(waiters))
  {
    hide Members;
    if waiters == [] {
      NoMembers();
      assert Ids(waiters) == [];
    } else {
      var early, ch := waiters[..|waiters| - 1], waiters[|waiters| - 1];
      TokensOfAll(early);
      Snoc(early, ch);
      assert waiters == early + [ch];
    }
  }

  // Taking a channel out of the list takes its number out of the list of numbers.
  lemma {:induction false} RemoveById(waiters: seq<Chan>, ch: Chan)
    requires forall w | w in waiters :: w.id == ch.id ==> w == ch
    ensures Ids(Remove(waiters, ch)) == Remove(Ids(waiters), ch.id)
    ensures forall w | w in Remove(waiters, ch) :: w in waiters
    decreases |waiters|
  {
    if waiters != [] {
      assert Ids(waiters)[1..] == Ids(waiters[1..]);
      if waiters[0] != ch {
        RemoveById(waiters[1..], ch);
        assert Ids([waiters[0]] + Remove(waiters[1..], ch)) == [waiters[0].id] + Ids(Remove(waiters[1..], ch));
      }
    }
  }

  /** No two channels have one number, and the next number is free. */
  ghost predicate OwnIds(waiters: seq<Chan>, next: nat) {
    && (forall w | w in waiters :: w.id < next)
    && (forall v, w | v in waiters && w in waiters && v.id == w.id :: v == w)
  }

  lemma OwnIdsSnoc(waiters: seq<Chan>, next: nat, ch: Chan)
    requires OwnIds(waiters, next) && ch.id == next
    ensures OwnIds(waiters + [ch], next + 1)
  {
  }

  lemma OwnIdsRemove(waiters: seq<Chan>, next: nat, ch: Chan)
    requires OwnIds(waiters, next) && ch in waiters
    ensures OwnIds(Remove(waiters, ch), next) && Ids(Remove(waiters, ch)) == Remove(Ids(waiters), ch.id)
  {
    RemoveById(waiters, ch);
  }

  class Checker {
    const allowReplica: bool
    const metrics: Registry
    var isMaster: bool
    var current: string
    var waiters: seq<Chan>
    var probeErr: bool
    var transitions: seq<(string, string)>
    var notified: nat
    ghost var nextCh: nat

    /** This object and its channels as a state of the protocol between two probes, without the agents around it. */
    ghost function View(): State
      reads this, waiters
    {
      State(allowReplica, isMaster, current, probeErr, Idle, Ids(waiters), Tokens(waiters), nextCh, map[],
            transitions, notified)
    }

    /** Holds between two probes. */
    ghost predicate Valid()
      reads this
    {
      && (isMaster <==> current == MASTER) && Chain(transitions, current) && notified == |transitions|
      && OwnIds(waiters, nextCh)
    }

    constructor (allowReplica: bool, metrics: Registry)
      ensures Valid() && this.allowReplica == allowReplica && this.metrics == metrics
      ensures View() == Init(allowReplica)
    {
      this.allowReplica, this.metrics := allowReplica, metrics;
      isMaster, current, waiters, probeErr := false, UNKNOWN, [], false;
      transitions, notified, nextCh := [], 0, 0;
    }

    /** What the gate answers, in this object and in the protocol. */
    function IsMaster(): (r: bool)
      reads this, waiters
      ensures r <==> Active(View())
      ensures Valid() ==> (r <==> allowReplica || current == "master")
    {
      if allowReplica then true else isMaster
    }

    method Subscribe() returns (ch: Chan)
      requires Valid()
      modifies this`waiters, this`nextCh
      ensures Valid() && fresh(ch) && !ch.full
      ensures waiters == old(waiters) + [ch]
      ensures View() == Subscribed(old(View()))
    {
      hide Ids, Tokens, Members, Chain, OwnIds;
      ch := new Chan(nextCh);
      OwnIdsSnoc(waiters, nextCh, ch);
      waiters := waiters + [ch];
      nextCh := nextCh + 1;
      Snoc(old(waiters), ch);
    }

    /** The cancel function that Subscribe hands out. A token that is left in the channel goes with it. */
    method Cancel(ch: Chan)
      requires Valid() && ch in waiters
      modifies this`waiters
      ensures Valid() && waiters == Remove(old(waiters), ch)
      ensures View() == Unsubscribed(old(View()), ch.id).(full := Tokens(waiters))
    {
      hide Ids, Tokens, Chain, OwnIds, Remove;
      OwnIdsRemove(waiters, nextCh, ch);
      Splice(ch);
    }

    // The loop of that function: the first occurrence goes.
    method Splice(ch: Chan)
      modifies this`waiters
      ensures waiters == Remove(old(waiters), ch)
    {
      for i := 0 to |waiters|
        invariant waiters == old(waiters)
        invariant Remove(waiters, ch) == waiters[..i] + Remove(waiters[i..], ch)
      {
        assert waiters[i..][1..] == waiters[i + 1..];
        if waiters[i] == ch {
          waiters := waiters[..i] + waiters[i + 1..];
          return;
        }
        assert waiters[..i + 1] == waiters[..i] + [waiters[i]];
      }
      assert waiters[|waiters|..] == [] && waiters[..|waiters|] == waiters;
    }

    method Notify()
      modifies this`notified, waiters
      ensures notified == old(notified) + 1
      ensures forall ch | ch in waiters :: ch.full
      ensures Tokens(waiters) == old(Tokens(waiters)) + Members(Ids(waiters))
    {
      hide Ids, Tokens, Members;
      TokensOfAll(waiters);
      for i := 0 to |waiters|
        invariant notified == old(notified)
        invariant forall j | 0 <= j < i :: waiters[j].full
        modifies waiters
      {
        waiters[i].TrySend();
      }
      notified := notified + 1;
      TokensOfAll(waiters);
    }

    /** One probe; None is a failed query. */
    method ProbeOnce(answer: Option<string>)
      requires Valid()
      modifies this`isMaster, this`current, this`probeErr, this`transitions, this`notified, waiters,
               metrics`roleKnown
      ensures Valid()
      ensures View() == ProbeResult(old(View()), answer)
      ensures answer == None ==>
                probeErr && current == old(current) && isMaster == old(isMaster) && transitions == old(transitions)
      ensures answer.Some? ==> !probeErr && current == answer.value && (isMaster <==> answer.value == "master")
      ensures if answer.Some? && answer.value != old(current) then forall ch | ch in waiters :: ch.full
              else forall ch | ch in waiters :: ch.full == old(ch.full)
      ensures metrics.Snapshot() == if answer == None then old(metrics.Snapshot())
                                    else OnProbe(old(metrics.Snapshot()), answer.value)
      ensures answer.Some? ==> (metrics.roleKnown <==> current != "unknown" && current != "")
    {
      hide Ids, Tokens, Members, Chain, OwnIds;
      if answer.Some? && answer.value != current {
        ChainSnoc(transitions, current, answer.value);
      }
      if answer == None {
        probeErr := true;
        return;
      }
      var role := answer.value;
      probeErr := false;
      var oldRole := current;
      isMaster := role == MASTER;
      current := role;
      metrics.SetRedisRole(role);
      if oldRole != role {
        transitions := transitions + [(oldRole, role)];
        Notify();
      }
    }
  }
}
