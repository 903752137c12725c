/**
 Single-flight reads of provider keys: concurrent readers of one provider share the keychain
 load of whoever came first. Steps are the critical sections of `get_provider_key`; other
 code may change the cache between any two of them.
 */
module KeyReads {
  import opened Support

  type Provider = string
  type SlotId = nat
  type ThreadId = nat

  /** A key, no key, or an error text. */
  type ReadResult = Result<Option<string>, string>

  /** The slot a reader of `provider` gets: the one in flight, or its own fresh one. */
  function SlotFor(inFlight: map<Provider, SlotId>, provider: Provider, unused: SlotId): SlotId {
    if provider in inFlight then inFlight[provider] else unused
  }

  /** The cache after a load: a key that was found is kept, anything else is not. */
  function WithKey(cache: map<Provider, string>, provider: Provider, result: ReadResult): map<Provider, string> {
    if result.Ok? && result.value.Some? then cache[provider := result.value.value] else cache
  }

  /** The shared maps behind the store's two locks, changed one critical section at a time. */
  class ProviderKeyStore {
    var cache: map<Provider, string>
    var inFlight: map<Provider, SlotId>
    var results: map<SlotId, Option<ReadResult>>

    constructor ()
      ensures cache == map[] && inFlight == map[] && results == map[]
    {
      cache, inFlight, results := map[], map[], map[];
    }

    /** `begin_provider_key_read`: a ticket as owner of a new slot, or as waiter on the one in flight. */
    method BeginProviderKeyRead(provider: Provider, unused: SlotId) returns (isOwner: bool, slot: SlotId)
      modifies this
      ensures isOwner <==> provider !in old(inFlight)
      ensures slot == SlotFor(old(inFlight), provider, unused) && cache == old(cache)
      ensures inFlight == old(inFlight)[provider := slot]
      ensures results == if isOwner then old(results)[unused := None] else old(results)
    {
      if provider in inFlight {
        assert inFlight == inFlight[provider := inFlight[provider]];
        return false, inFlight[provider];
      }
      results := results[unused := None];
      inFlight := inFlight[provider := unused];
      return true, unused;
    }

    /** The owner's first step after its load. */
    method CacheKey(provider: Provider, result: ReadResult)
      modifies this`cache
      ensures cache == WithKey(old(cache), provider, result)
    {
      if result.Ok? && result.value.Some? {
        cache := cache[provider := result.value.value];
      }
    }

    /** `finish`: publishes the result in the slot, which wakes its waiters. */
    method Finish(slot: SlotId, result: ReadResult)
      modifies this`results
      ensures results == old(results)[slot := Some(result)]
    {
      results := results[slot := Some(result)];
    }

    /** `finish_provider_key_read`: the next reader that misses the cache starts a new read. */
    method FinishProviderKeyRead(provider: Provider)
      modifies this`inFlight
      ensures inFlight == old(inFlight) - {provider}
    {
      inFlight := inFlight - {provider};
    }
  }

  /** Where a thread stands in `get_provider_key`. */
  datatype Phase =
    | Idle
    | Missed(provider: Provider)
    | Loading(provider: Provider, slot: SlotId)
    | Loaded(provider: Provider, slot: SlotId, result: ReadResult)
    | Cached(provider: Provider, slot: SlotId, result: ReadResult)
    | Published(provider: Provider, slot: SlotId, result: ReadResult)
    | Waiting(provider: Provider, slot: SlotId)
    | ReturnedCached(provider: Provider, key: string)
    | Returned(provider: Provider, slot: SlotId, result: ReadResult)

  /** A finished keychain load: whose key was asked for, and the answer. */
  datatype Load = Load(provider: Provider, result: ReadResult)

  /**
   `results` are the slots' contents; `owners`, `providers` and `loads` record, for each slot
   ever made, the thread that owns it, the provider it is for and its keychain load.
   */
  datatype Store = Store(
    cache: map<Provider, string>,
    inFlight: map<Provider, SlotId>,
    results: map<SlotId, Option<ReadResult>>,
    threads: map<ThreadId, Phase>,
    owners: map<SlotId, ThreadId>,
    providers: map<SlotId, Provider>,
    loads: map<SlotId, Load>)

  datatype Step =
    | Look(thread: ThreadId, provider: Provider)
    | BeginRead(thread: ThreadId, slot: SlotId)
    | FinishLoad(thread: ThreadId, result: ReadResult)
    | WriteCache(thread: ThreadId)
    | Publish(thread: ThreadId)
    | RemoveSlot(thread: ThreadId)
    | Wake(thread: ThreadId)
    | CallAgain(thread: ThreadId)
    | OtherCacheChange(cache: map<Provider, string>)

  ghost predicate Init(s: Store) {
    && s.cache == map[] && s.inFlight == map[] && s.results == map[]
    && s.owners == map[] && s.providers == map[] && s.loads == map[]
    && forall t :: t in s.threads ==> s.threads[t] == Idle
  }

  ghost function At(s: Store, t: ThreadId, phase: Phase): Store {
    s.(threads := s.threads[t := phase])
  }

  ghost predicate Next(s: Store, step: Step, s': Store) {
    if step.OtherCacheChange? then s' == s.(cache := step.cache)
    else step.thread in s.threads && Acts(s, step, step.thread, s.threads[step.thread], s')
  }

  ghost predicate Acts(s: Store, step: Step, t: ThreadId, phase: Phase, s': Store)
    requires !step.OtherCacheChange?
  {
    match step
    case Look(_, provider) =>
      && phase == Idle
      && s' == At(s, t, if provider in s.cache then ReturnedCached(provider, s.cache[provider]) else Missed(provider))
    case BeginRead(_, slot) =>
      && phase.Missed?
      && if phase.provider in s.inFlight then
           s' == At(s, t, Waiting(phase.provider, SlotFor(s.inFlight, phase.provider, slot)))
         else
           && slot !in s.results && slot !in s.owners && slot !in s.providers && slot !in s.loads
           && s' == At(s, t, Loading(phase.provider, slot)).(
                inFlight := s.inFlight[phase.provider := slot],
                results := s.results[slot := None],
                owners := s.owners[slot := t],
                providers := s.providers[slot := phase.provider])
    case FinishLoad(_, result) =>
      && phase.Loading?
      && s' == At(s, t, Loaded(phase.provider, phase.slot, result)).(
           loads := s.loads[phase.slot := Load(phase.provider, result)])
    case WriteCache(_) =>
      && phase.Loaded?
      && s' == At(s, t, Cached(phase.provider, phase.slot, phase.result)).(
           cache := WithKey(s.cache, phase.provider, phase.result))
    case Publish(_) =>
      && phase.Cached?
      && s' == At(s, t, Published(phase.provider, phase.slot, phase.result)).(
           results := s.results[phase.slot := Some(phase.result)])
    case RemoveSlot(_) =>
      && phase.Published?
      && s' == At(s, t, Returned(phase.provider, phase.slot, phase.result)).(inFlight := s.inFlight - {phase.provider})
    case Wake(_) =>
      && phase.Waiting? && phase.slot in s.results && s.results[phase.slot].Some?
      && s' == At(s, t, Returned(phase.provider, phase.slot, s.results[phase.slot].value))
    case CallAgain(_) => (phase.Returned? || phase.ReturnedCached?) && s' == At(s, t, Idle)
  }

  // ----- The invariant -----

  ghost predicate IsOwner(phase: Phase) {
    phase.Loading? || phase.Loaded? || phase.Cached? || phase.Published?
  }

  /** The owner has not yet put its result into the slot. */
  ghost predicate WillPublish(phase: Phase) {
    phase.Loading? || phase.Loaded? || phase.Cached?
  }

  ghost predicate ThreadInv(s: Store, t: ThreadId, phase: Phase) {
    && (IsOwner(phase) ==>
          && phase.provider in s.inFlight && s.inFlight[phase.provider] == phase.slot
          && phase.slot in s.owners && s.owners[phase.slot] == t
          && phase.slot in s.results
          && s.results[phase.slot] == if phase.Published? then Some(phase.result) else None)
    && (phase.Loading? ==> phase.slot !in s.loads)
    && (phase.Loaded? || phase.Cached? || phase.Published? || phase.Returned? ==>
          phase.slot in s.loads && s.loads[phase.slot] == Load(phase.provider, phase.result))
    && (phase.Waiting? ==> phase.slot in s.results && SlotInv(s, phase.slot))
    && (IsOwner(phase) || phase.Waiting? ==>
          phase.slot in s.providers && s.providers[phase.slot] == phase.provider)
  }

  /** A slot has its result, or its owner is still going to publish one. */
  ghost predicate SlotInv(s: Store, slot: SlotId)
    requires slot in s.results
  {
    && slot in s.owners && s.owners[slot] in s.threads
    && slot in s.providers
    && (s.results[slot].Some? ==> slot in s.loads && s.loads[slot] == Load(s.providers[slot], s.results[slot].value))
    && (s.results[slot].None? ==>
          var owner := s.threads[s.owners[slot]]; WillPublish(owner) && owner.slot == slot)
  }

  ghost predicate KeysInv(s: Store) {
    s.results.Keys == s.owners.Keys == s.providers.Keys && s.loads.Keys <= s.owners.Keys
  }

  ghost predicate Inv(s: Store) {
    && KeysInv(s)
    && (forall slot :: slot in s.results ==> SlotInv(s, slot))
    && (forall t :: t in s.threads ==> ThreadInv(s, t, s.threads[t]))
    && (forall provider :: provider in s.inFlight ==> InFlightInv(s, provider, s.inFlight[provider]))
  }

  /** The slot in flight for a provider belongs to a thread that is reading that provider's key. */
  ghost predicate InFlightInv(s: Store, provider: Provider, slot: SlotId) {
    && slot in s.results && slot in s.owners && s.owners[slot] in s.threads
    && slot in s.providers && s.providers[slot] == provider
    && var owner := s.threads[s.owners[slot]]; IsOwner(owner) && owner.provider == provider && owner.slot == slot
  }

  lemma SlotKept(s: Store, step: Step, s': Store, slot: SlotId)
    requires !step.OtherCacheChange? && Next(s, step, s')
    requires ThreadInv(s, step.thread, s.threads[step.thread])
    requires slot in s.results && SlotInv(s, slot)
    ensures slot in s'.results && SlotInv(s', slot)
  {
  }

  lemma BeginningThreadKept(s: Store, step: Step, s': Store)
    requires KeysInv(s) && step.BeginRead? && Next(s, step, s')
    requires ThreadInv(s, step.thread, s.threads[step.thread])
    requires forall provider :: provider in s.inFlight ==>
               InFlightInv(s, provider, s.inFlight[provider]) && SlotInv(s, s.inFlight[provider])
    ensures ThreadInv(s', step.thread, s'.threads[step.thread])
  {
    if s'.threads[step.thread].Waiting? {
      SlotKept(s, step, s', s'.threads[step.thread].slot);
    }
  }

  lemma ActingThreadKept(s: Store, step: Step, s': Store)
    requires !step.OtherCacheChange? && !step.BeginRead? && Next(s, step, s')
    requires ThreadInv(s, step.thread, s.threads[step.thread])
    ensures ThreadInv(s', step.thread, s'.threads[step.thread])
  {
  }

  lemma OtherThreadKept(s: Store, step: Step, s': Store, other: ThreadId)
    requires !step.OtherCacheChange? && Next(s, step, s') && other in s.threads && other != step.thread
    requires ThreadInv(s, step.thread, s.threads[step.thread]) && ThreadInv(s, other, s.threads[other])
    requires KeysInv(s)
    ensures ThreadInv(s', other, s'.threads[other])
  {
    if s.threads[other].Waiting? {
      SlotKept(s, step, s', s.threads[other].slot);
    }
  }

  lemma InFlightKept(s: Store, step: Step, s': Store, provider: Provider)
    requires !step.OtherCacheChange? && Next(s, step, s') && provider in s'.inFlight
    requires ThreadInv(s, step.thread, s.threads[step.thread])
    requires provider in s.inFlight ==> InFlightInv(s, provider, s.inFlight[provider])
    ensures InFlightInv(s', provider, s'.inFlight[provider])
  {
  }

  lemma KeysKept(s: Store, step: Step, s': Store)
    requires KeysInv(s)
    requires !step.OtherCacheChange? && Next(s, step, s')
    requires ThreadInv(s, step.thread, s.threads[step.thread])
    ensures KeysInv(s')
    ensures s'.threads.Keys == s.threads.Keys
  {
  }

  lemma NewSlotOwned(s: Store, step: Step, s': Store, slot: SlotId)
    requires !step.OtherCacheChange? && Next(s, step, s')
    requires ThreadInv(s, step.thread, s.threads[step.thread])
    requires slot in s'.results && slot !in s.results
    ensures SlotInv(s', slot)
  {
  }

  lemma OtherCacheChangeKeepsInv(s: Store, step: Step, s': Store)
    requires Inv(s) && step.OtherCacheChange? && Next(s, step, s')
    ensures Inv(s')
  {
  }

  lemma NextKeepsInv(s: Store, step: Step, s': Store)
    requires Inv(s) && Next(s, step, s')
    ensures Inv(s')
  {
    if step.OtherCacheChange? {
      OtherCacheChangeKeepsInv(s, step, s');
    } else {
      assert ThreadInv(s, step.thread, s.threads[step.thread]);
      KeysKept(s, step, s');
      forall slot | slot in s'.results
        ensures SlotInv(s', slot)
      {
        if slot in s.results {
          SlotKept(s, step, s', slot);
        } else {
          NewSlotOwned(s, step, s', slot);
        }
      }
      forall other | other in s'.threads
        ensures ThreadInv(s', other, s'.threads[other])
      {
        if other == step.thread && step.BeginRead? {
          assert forall provider :: provider in s.inFlight ==>
              InFlightInv(s, provider, s.inFlight[provider]) && SlotInv(s, s.inFlight[provider]);
          BeginningThreadKept(s, step, s');
        } else if other == step.thread {
          ActingThreadKept(s, step, s');
        } else {
          OtherThreadKept(s, step, s', other);
        }
      }
      forall provider | provider in s'.inFlight
        ensures InFlightInv(s', provider, s'.inFlight[provider])
      {
        InFlightKept(s, step, s', provider);
      }
    }
  }

  ghost predicate IsRun(states: seq<Store>, steps: seq<Step>) {
    && |states| == |steps| + 1
    && Init(states[0])
    && forall i :: 0 <= i < |steps| ==> Next(states[i], steps[i], states[i + 1])
  }

  lemma {:induction false} RunKeepsInv(states: seq<Store>, steps: seq<Step>, i: nat)
    requires IsRun(states, steps) && i < |states|
    ensures Inv(states[i])
  {
    if i > 0 {
      RunKeepsInv(states, steps, i - 1);
      NextKeepsInv(states[i - 1], steps[i - 1], states[i]);
    }
  }

  /** At most one keychain load per provider is in flight. */
  lemma OneLoadPerProvider(states: seq<Store>, steps: seq<Step>, i: nat, t: ThreadId, u: ThreadId)
    requires IsRun(states, steps) && i < |states|
    requires t in states[i].threads && u in states[i].threads
    requires states[i].threads[t].Loading? && states[i].threads[u].Loading?
    requires states[i].threads[t].provider == states[i].threads[u].provider
    ensures t == u
  {
    RunKeepsInv(states, steps, i);
    assert ThreadInv(states[i], t, states[i].threads[t]) && ThreadInv(states[i], u, states[i].threads[u]);
  }

  /**
   Any slot a reader can find in the map has its result already, as between publication and
   removal, or has an owner that is still going to publish one. The same holds for the slot
   any waiter waits on, so no waiter is left without a result to come.
   */
  lemma FoundSlotsAreServed(states: seq<Store>, steps: seq<Step>, i: nat, slot: SlotId)
    requires IsRun(states, steps) && i < |states|
    requires || (exists provider :: provider in states[i].inFlight && states[i].inFlight[provider] == slot)
             || (exists t :: t in states[i].threads && states[i].threads[t].Waiting? && states[i].threads[t].slot == slot)
    ensures slot in states[i].results && slot in states[i].owners && states[i].owners[slot] in states[i].threads
    ensures || states[i].results[slot].Some?
            || (var owner := states[i].threads[states[i].owners[slot]]; WillPublish(owner) && owner.slot == slot)
  {
    RunKeepsInv(states, steps, i);
    if t :| t in states[i].threads && states[i].threads[t].Waiting? && states[i].threads[t].slot == slot {
      assert ThreadInv(states[i], t, states[i].threads[t]);
    }
    assert SlotInv(states[i], slot);
  }

  lemma {:induction false} LoadsAreKept(states: seq<Store>, steps: seq<Step>, i: nat, j: nat, slot: SlotId)
    requires IsRun(states, steps) && i <= j < |states| && slot in states[i].loads
    ensures slot in states[j].loads && states[j].loads[slot] == states[i].loads[slot]
    decreases j - i
  {
    if i < j {
      LoadsAreKept(states, steps, i, j - 1, slot);
      RunKeepsInv(states, steps, j - 1);
      var s, step := states[j - 1], steps[j - 1];
      assert Next(s, step, states[j]);
      assert step.FinishLoad? ==> ThreadInv(s, step.thread, s.threads[step.thread]);
      LoadKept(s, step, states[j], slot);
    }
  }

  lemma LoadKept(s: Store, step: Step, s': Store, slot: SlotId)
    requires Next(s, step, s') && slot in s.loads
    requires step.FinishLoad? ==> ThreadInv(s, step.thread, s.threads[step.thread])
    ensures slot in s'.loads && s'.loads[slot] == s.loads[slot]
  {
  }

  /**
   A call that did not hit the cache returns what its slot's single keychain load returned,
   whether it owned the slot or waited on it. The load was made for the very provider the
   caller asked for, and it never changes afterwards.
   */
  lemma EveryReaderGetsTheLoad(states: seq<Store>, steps: seq<Step>, i: nat, j: nat, t: ThreadId)
    requires IsRun(states, steps) && i <= j < |states|
    requires t in states[i].threads && states[i].threads[t].Returned?
    ensures var returned := states[i].threads[t];
            && returned.slot in states[j].loads
            && states[j].loads[returned.slot] == Load(returned.provider, returned.result)
  {
    RunKeepsInv(states, steps, i);
    assert ThreadInv(states[i], t, states[i].threads[t]);
    LoadsAreKept(states, steps, i, j, states[i].threads[t].slot);
  }

  // ----- The cache -----

  ghost predicate FromLoad(s: Store, provider: Provider, key: string) {
    exists slot :: slot in s.loads && s.loads[slot] == Load(provider, Ok(Some(key)))
  }

  ghost predicate FoundKey(result: ReadResult) {
    result.Ok? && result.value.Some?
  }

  /** The call is past caching its result, or took it from the cache. */
  ghost predicate CachedThread(s: Store, phase: Phase) {
    && ((phase.Cached? || phase.Published? || phase.Returned?) && FoundKey(phase.result) ==> phase.provider in s.cache)
    && (phase.ReturnedCached? ==> FromLoad(s, phase.provider, phase.key))
  }

  ghost predicate CachedSlot(s: Store, slot: SlotId) {
    slot in s.results && s.results[slot].Some? && FoundKey(s.results[slot].value) ==>
      slot in s.providers && s.providers[slot] in s.cache
  }

  ghost predicate CacheInv(s: Store) {
    && (forall provider :: provider in s.cache ==> FromLoad(s, provider, s.cache[provider]))
    && (forall slot :: slot in s.results ==> CachedSlot(s, slot))
    && (forall t :: t in s.threads ==> CachedThread(s, s.threads[t]))
  }

  lemma LoadsStayKnown(s: Store, step: Step, s': Store)
    requires Next(s, step, s')
    requires !step.OtherCacheChange? ==> ThreadInv(s, step.thread, s.threads[step.thread])
    ensures forall provider, key :: FromLoad(s, provider, key) ==> FromLoad(s', provider, key)
  {
    forall slot | slot in s.loads
      ensures slot in s'.loads && s'.loads[slot] == s.loads[slot]
    {
      LoadKept(s, step, s', slot);
    }
  }

  lemma StepKeepsCached(s: Store, step: Step, s': Store)
    requires !step.OtherCacheChange? && Next(s, step, s')
    requires ThreadInv(s, step.thread, s.threads[step.thread]) && CachedThread(s, s.threads[step.thread])
    requires forall provider :: provider in s.cache ==> FromLoad(s, provider, s.cache[provider])
    requires forall slot :: slot in s.results ==> CachedSlot(s, slot)
    ensures s.cache.Keys <= s'.cache.Keys
    ensures forall provider :: provider in s'.cache ==> FromLoad(s', provider, s'.cache[provider])
    ensures CachedThread(s', s'.threads[step.thread])
  {
    LoadsStayKnown(s, step, s');
    var phase := s.threads[step.thread];
    if step.WriteCache? && FoundKey(phase.result) {
      assert s'.loads[phase.slot] == Load(phase.provider, Ok(Some(phase.result.value.value)));
    }
    if step.Wake? {
      assert CachedSlot(s, phase.slot);
    }
  }

  lemma StepKeepsSlotsCached(s: Store, step: Step, s': Store, slot: SlotId)
    requires !step.OtherCacheChange? && Next(s, step, s') && s.cache.Keys <= s'.cache.Keys
    requires ThreadInv(s, step.thread, s.threads[step.thread]) && CachedThread(s, s.threads[step.thread])
    requires slot in s'.results && CachedSlot(s, slot) && (slot in s.results ==> slot in s.providers)
    ensures CachedSlot(s', slot)
  {
  }

  lemma NextKeepsCacheInv(s: Store, step: Step, s': Store)
    requires Inv(s) && CacheInv(s) && Next(s, step, s') && !step.OtherCacheChange?
    ensures CacheInv(s')
  {
    assert ThreadInv(s, step.thread, s.threads[step.thread]) && CachedThread(s, s.threads[step.thread]);
    StepKeepsCached(s, step, s');
    LoadsStayKnown(s, step, s');
    forall slot | slot in s'.results
      ensures CachedSlot(s', slot)
    {
      assert slot in s.results ==> SlotInv(s, slot) && CachedSlot(s, slot);
      StepKeepsSlotsCached(s, step, s', slot);
    }
    forall t | t in s'.threads && t != step.thread
      ensures CachedThread(s', s'.threads[t])
    {
      assert CachedThread(s, s.threads[t]);
    }
  }

  lemma {:induction false} RunKeepsCacheInv(states: seq<Store>, steps: seq<Step>, i: nat)
    requires IsRun(states, steps) && i < |states|
    requires forall k :: 0 <= k < i ==> !steps[k].OtherCacheChange?
    ensures CacheInv(states[i])
  {
    if i > 0 {
      RunKeepsInv(states, steps, i - 1);
      RunKeepsCacheInv(states, steps, i - 1);
      NextKeepsCacheInv(states[i - 1], steps[i - 1], states[i]);
    }
  }

  /**
   While nobody else changes the cache, a key answered from it is the answer of an earlier
   keychain load for that provider, and once a call has returned a loaded key the provider's
   next lookup is answered from the cache.
   */
  lemma CacheServesLoadedKeys(states: seq<Store>, steps: seq<Step>, i: nat, t: ThreadId)
    requires IsRun(states, steps) && i < |states| && t in states[i].threads
    requires forall k :: 0 <= k < i ==> !steps[k].OtherCacheChange?
    ensures var phase := states[i].threads[t];
            && (phase.ReturnedCached? ==>
                  exists slot :: slot in states[i].loads
                                 && states[i].loads[slot] == Load(phase.provider, Ok(Some(phase.key))))
            && (phase.Returned? && phase.result.Ok? && phase.result.value.Some? ==> phase.provider in states[i].cache)
  {
    RunKeepsCacheInv(states, steps, i);
    assert CachedThread(states[i], states[i].threads[t]);
  }
}
