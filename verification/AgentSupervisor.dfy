/** Reconciling the running agents with the desired ones. */
module AgentSupervisor {
  import opened AgentSpecs

  /** A task is named by the number of tasks spawned before it. */
  datatype Running = Running(spec: Spec, task: nat)

  type Agents = map<Key, Running>

  predicate Unchanged(agents: Agents, desired: map<Key, Spec>, key: Key)
  {
    key in agents && key in desired && agents[key].spec == desired[key]
  }

  function Kept(agents: Agents, desired: map<Key, Spec>): Agents
  {
    map key | key in agents && Unchanged(agents, desired, key) :: agents[key]
  }

  /** The tasks of agents that are no longer wanted as they are. */
  function Obsolete(agents: Agents, desired: map<Key, Spec>): set<nat>
  {
    set key | key in agents && !Unchanged(agents, desired, key) :: agents[key].task
  }

  /** The agents that are wanted, or not yet examined. */
  function Remaining(agents: Agents, desired: map<Key, Spec>, keys: set<Key>): Agents
  {
    map key | key in agents && (key in keys || Unchanged(agents, desired, key)) :: agents[key]
  }

  function Dropped(agents: Agents, desired: map<Key, Spec>, keys: set<Key>): set<nat>
  {
    set key | key in agents && !(key in keys || Unchanged(agents, desired, key)) :: agents[key].task
  }

  lemma {:induction false} ExamineOne(agents: Agents, desired: map<Key, Spec>, keys: set<Key>, key: Key)
    requires key in keys && key in agents
    ensures key in Remaining(agents, desired, keys) && Remaining(agents, desired, keys)[key] == agents[key]
    ensures Unchanged(agents, desired, key) ==>
            && Remaining(agents, desired, keys - {key}) == Remaining(agents, desired, keys)
            && Dropped(agents, desired, keys - {key}) == Dropped(agents, desired, keys)
    ensures !Unchanged(agents, desired, key) ==>
            && Remaining(agents, desired, keys - {key}) == Remaining(agents, desired, keys) - {key}
            && Dropped(agents, desired, keys - {key}) == Dropped(agents, desired, keys) + {agents[key].task}
  {
  }

  lemma {:induction false} AllOrNone(agents: Agents, desired: map<Key, Spec>)
    ensures Remaining(agents, desired, agents.Keys) == agents && Dropped(agents, desired, agents.Keys) == {}
    ensures Remaining(agents, desired, {}) == Kept(agents, desired)
    ensures Dropped(agents, desired, {}) == Obsolete(agents, desired)
  {
  }

  function Specs(agents: Agents): map<Key, Spec>
  {
    map key | key in agents :: agents[key].spec
  }

  ghost predicate TasksDistinct(agents: Agents, next: nat)
  {
    && (forall k :: k in agents ==> agents[k].task < next)
    && forall j, k :: j in agents && k in agents && j != k ==> agents[j].task != agents[k].task
  }

  lemma {:induction false} SameAgent(a: Agents, b: Agents, desired: map<Key, Spec>, key: Key)
    requires key in a && key in b && a[key] == b[key]
    ensures Unchanged(a, desired, key) <==> Unchanged(b, desired, key)
  {
  }

  ghost predicate Sound(agents: Agents, next: nat, aborted: set<nat>)
  {
    && TasksDistinct(agents, next)
    && (forall t :: t in aborted ==> t < next)
    && forall k :: k in agents ==> agents[k].task !in aborted
  }

  lemma {:induction false} RetainIsSound(agents: Agents, next: nat, aborted: set<nat>, desired: map<Key, Spec>)
    requires Sound(agents, next, aborted)
    ensures Sound(Kept(agents, desired), next, aborted + Obsolete(agents, desired))
  {
    var kept, gone := Kept(agents, desired), Obsolete(agents, desired);
    forall t | t in gone ensures t < next {
      var k :| k in agents && !Unchanged(agents, desired, k) && agents[k].task == t;
    }
    forall k | k in kept ensures kept[k].task !in gone {
    }
  }

  /** Only wanted agents, the earlier ones as they were, and new tasks for the others. */
  ghost predicate Grown(before: Agents, first: nat, agents: Agents, desired: map<Key, Spec>)
  {
    && (forall k :: k in agents ==> Unchanged(agents, desired, k))
    && (forall k :: k in before ==> k in agents && agents[k] == before[k])
    && forall k :: k in agents && k !in before ==> agents[k].task >= first
  }

  lemma {:induction false} GrewNot(before: Agents, desired: map<Key, Spec>, first: nat)
    requires forall k :: k in before ==> Unchanged(before, desired, k)
    ensures Grown(before, first, before, desired)
  {
  }

  lemma {:induction false} GrowOne(
    before: Agents, first: nat, agents: Agents, desired: map<Key, Spec>, key: Key, next: nat)
    requires Grown(before, first, agents, desired) && key in desired && key !in agents && next >= first
    ensures Grown(before, first, agents[key := Running(desired[key], next)], desired)
  {
  }

  lemma {:induction false} GrownFull(before: Agents, first: nat, agents: Agents, desired: map<Key, Spec>)
    requires Grown(before, first, agents, desired) && forall k :: k in desired ==> k in agents
    ensures Specs(agents) == desired
  {
  }

  lemma {:induction false} StartOne(agents: Agents, next: nat, aborted: set<nat>, key: Key, spec: Spec)
    requires Sound(agents, next, aborted) && key !in agents
    ensures Sound(agents[key := Running(spec, next)], next + 1, aborted)
  {
  }

  lemma {:induction false} AlreadyThere(agents: Agents, desired: map<Key, Spec>)
    requires Specs(agents) == desired
    ensures Kept(agents, desired) == agents && Obsolete(agents, desired) == {} && agents.Keys == desired.Keys
  {
    assert forall k :: k in agents ==> k in Specs(agents) && Specs(agents)[k] == agents[k].spec;
    assert agents.Keys == Specs(agents).Keys;
  }

  lemma {:induction false} KeptUnchanged(agents: Agents, desired: map<Key, Spec>)
    ensures var kept := Kept(agents, desired);
            && (forall k :: k in kept ==> Unchanged(kept, desired, k))
            && (forall k :: k in kept <==> Unchanged(agents, desired, k))
            && (forall k :: k in kept ==> kept[k] == agents[k])
  {
  }

  class Supervisor {
    var agents: Agents
    var next: nat
    ghost var aborted: set<nat>

    /** Distinct agents run distinct tasks, and no running agent's task was aborted. */
    ghost predicate Valid()
      reads this
    {
      Sound(agents, next, aborted)
    }

    constructor ()
      ensures Valid() && agents == map[] && next == 0 && aborted == {}
    {
      agents := map[];
      next := 0;
      aborted := {};
    }

    /** Drops every agent that is not wanted as it runs, aborting its task. */
    method Retain(desired: map<Key, Spec>)
      requires Valid()
      modifies this`agents, this`aborted
      ensures Valid()
      ensures agents == Kept(old(agents), desired)
      ensures aborted == old(aborted) + Obsolete(old(agents), desired)
    {
      hide Remaining, Dropped, Kept, Obsolete, Sound, Unchanged;
      RetainIsSound(agents, next, aborted, desired);
      ghost var before, gone := agents, aborted;
      AllOrNone(before, desired);
      var keys := agents.Keys;
      while keys != {}
        invariant keys <= before.Keys
        invariant agents == Remaining(before, desired, keys) && aborted == gone + Dropped(before, desired, keys)
        decreases |keys|
      {
        var key :| key in keys;
        ExamineOne(before, desired, keys, key);
        SameAgent(agents, before, desired, key);
        keys := keys - {key};
        if !Unchanged(agents, desired, key) {
          aborted := aborted + {agents[key].task};
          agents := agents - {key};
        }
      }
    }

    /** Starts an agent for every desired key that has none. */
    method StartMissing(desired: map<Key, Spec>)
      requires Valid() && forall k :: k in agents ==> Unchanged(agents, desired, k)
      modifies this`agents, this`next
      ensures Valid()
      ensures Specs(agents) == desired && Grown(old(agents), old(next), agents, desired)
      ensures old(agents).Keys == desired.Keys ==> agents == old(agents) && next == old(next)
    {
      hide Sound;
      ghost var before, first := agents, next;
      GrewNot(before, desired, first);
      var keys := desired.Keys;
      while keys != {}
        invariant keys <= desired.Keys && Valid() && next >= first
        invariant Grown(before, first, agents, desired)
        invariant forall k :: k in desired && k !in keys ==> k in agents
        invariant before.Keys == desired.Keys ==> agents == before && next == first
        decreases |keys|
      {
        var key :| key in keys;
        keys := keys - {key};
        if key !in agents {
          StartOne(agents, next, aborted, key, desired[key]);
          GrowOne(before, first, agents, desired, key, next);
          agents := agents[key := Running(desired[key], next)];
          next := next + 1;
        }
      }
      GrownFull(before, first, agents, desired);
    }

    /**
     * The running agents become the desired ones: an unchanged agent keeps its task, exactly the tasks
     * of the others are aborted, and every started task is new. Already reconciled, nothing happens.
     */
    method Reconcile(desired: map<Key, Spec>)
      requires Valid()
      modifies this
      ensures Valid()
      ensures Specs(agents) == desired
      ensures forall k :: Unchanged(old(agents), desired, k) ==> agents[k] == old(agents)[k]
      ensures forall k :: k in agents && !Unchanged(old(agents), desired, k) ==> agents[k].task >= old(next)
      ensures aborted == old(aborted) + Obsolete(old(agents), desired)
      ensures Specs(old(agents)) == desired ==> agents == old(agents) && next == old(next) && aborted == old(aborted)
    {
      hide Sound, Kept, Obsolete, Specs, Unchanged;
      if Specs(agents) == desired {
        AlreadyThere(agents, desired);
      }
      KeptUnchanged(agents, desired);
      Retain(desired);
      StartMissing(desired);
    }
  }
}
