/** The task registry of the theme update manager: one resolution task per active
    cloud theme identity, reconciled against every settings snapshot delivered. */
module Registry {
  import opened ThemeTypes
  import Persistence

  /** A registry entry. Removing an entry from the registry stands for disposing of
      its resolution task. */
  datatype Context = Context(themeReference: ThemeReference, isAutoNight: bool)

  /** Identities of the previous snapshot: its theme's index, whatever its kind. */
  function PreviousIds(previous: Option<ThemeSettings>): set<int>
  {
    match previous
    case Some(settings) => {settings.theme.Index()}
    case None => {}
  }

  /** Identities of the new snapshot: only a cloud theme contributes. */
  function ValidIds(settings: ThemeSettings): set<int>
  {
    if settings.theme.Cloud? then {settings.theme.Index()} else {}
  }

  /** Reference and auto-night flag for each valid identity. */
  function Themes(settings: ThemeSettings): map<int, (ThemeReference, bool)>
  {
    if settings.theme.Cloud? then map[settings.theme.Index() := (settings.theme, false)] else map[]
  }

  /** Entries started for the identities of `ids` that are not yet registered and
      whose reference is a cloud theme. */
  function Started(contexts: map<int, Context>, ids: set<int>, themes: map<int, (ThemeReference, bool)>): map<int, Context>
  {
    map id | id in ids && id !in contexts && id in themes && themes[id].0.Cloud? :: Context(themes[id].0, themes[id].1)
  }

  /** The registry after a snapshot `settings` is delivered, given the registry
      `contexts` and the previously delivered snapshot. */
  function Reconciled(contexts: map<int, Context>, previous: Option<ThemeSettings>, settings: ThemeSettings): (r: map<int, Context>)
    // Surviving entries are the old ones; new ones are the snapshot's cloud theme, without auto-night.
    ensures forall id | id in r && id in contexts :: r[id] == contexts[id]
    ensures forall id | id in r && id !in contexts ::
              settings.theme.Cloud? && id == settings.theme.Index() && r[id] == Context(settings.theme, false)
    // Only dropped identities of the previous snapshot are removed.
    ensures forall id | id in contexts && id !in r :: id in PreviousIds(previous) && id !in ValidIds(settings)
  {
    var previousIds, validIds := PreviousIds(previous), ValidIds(settings);
    if previousIds == validIds then contexts
    else (contexts + Started(contexts, validIds, Themes(settings))) - (previousIds - validIds)
  }

  /** The identities whose task a delivery starts: none when the identity sets agree. */
  function StartedIds(contexts: map<int, Context>, previous: Option<ThemeSettings>, settings: ThemeSettings): set<int>
  {
    if PreviousIds(previous) == ValidIds(settings) then {}
    else Started(contexts, ValidIds(settings), Themes(settings)).Keys
  }

  /** Identities started by a delivery were not registered before, and every other
      entry after the delivery is the old entry: nothing is restarted. */
  lemma ReconciledOnlyStartedAreNew(contexts: map<int, Context>, previous: Option<ThemeSettings>, settings: ThemeSettings)
    ensures StartedIds(contexts, previous, settings) !! contexts.Keys
    ensures var r := Reconciled(contexts, previous, settings);
      forall id | id in r && id !in StartedIds(contexts, previous, settings) :: id in contexts && r[id] == contexts[id]
    ensures var r := Reconciled(contexts, previous, settings);
      forall id | id in StartedIds(contexts, previous, settings) :: id in r && r[id] == Context(settings.theme, false)
  {
  }

  /** The registry invariant: every key is a cloud identity of the last delivered
      snapshot, and its entry holds a cloud reference with that index, started
      without auto-night. */
  ghost predicate RegistryInvariant(contexts: map<int, Context>, last: Option<ThemeSettings>)
  {
    && (last.None? ==> contexts == map[])
    && (last.Some? ==> contexts.Keys <= ValidIds(last.value))
    && forall id | id in contexts ::
         contexts[id].themeReference.Cloud? && contexts[id].themeReference.Index() == id && !contexts[id].isAutoNight
  }

  /** The registry keys are exactly the cloud identities of the last snapshot. */
  ghost predicate ExactRegistry(contexts: map<int, Context>, last: Option<ThemeSettings>)
  {
    contexts.Keys == if last.Some? then ValidIds(last.value) else {}
  }

  /** A switch from a non-cloud theme to a cloud theme that has the same index. */
  predicate IndexCollision(previous: Option<ThemeSettings>, settings: ThemeSettings)
  {
    && previous.Some?
    && previous.value.theme.Other?
    && settings.theme.Cloud?
    && previous.value.theme.Index() == settings.theme.Index()
  }

  /** The registry state after delivering each snapshot of `snapshots` in order. */
  function DeliverAll(contexts: map<int, Context>, last: Option<ThemeSettings>, snapshots: seq<ThemeSettings>): (map<int, Context>, Option<ThemeSettings>)
    decreases |snapshots|
  {
    if snapshots == [] then (contexts, last)
    else DeliverAll(Reconciled(contexts, last, snapshots[0]), Some(snapshots[0]), snapshots[1..])
  }

  /** When the identity sets agree the registry is left as it is, whatever else
      changed in the snapshot. */
  lemma ReconciledNoChurn(contexts: map<int, Context>, previous: Option<ThemeSettings>, settings: ThemeSettings)
    requires PreviousIds(previous) == ValidIds(settings)
    ensures Reconciled(contexts, previous, settings) == contexts
  {
  }

  /** Delivering the same snapshot twice leaves the registry as the first delivery made it. */
  lemma ReconciledRedelivery(contexts: map<int, Context>, previous: Option<ThemeSettings>, settings: ThemeSettings)
    requires RegistryInvariant(contexts, previous)
    ensures Reconciled(Reconciled(contexts, previous, settings), Some(settings), settings) == Reconciled(contexts, previous, settings)
  {
    ReconciledPreservesInvariant(contexts, previous, settings);
  }

  /** A registered identity keeps its entry or loses it; it is never replaced. */
  lemma ReconciledKeepsExisting(contexts: map<int, Context>, previous: Option<ThemeSettings>, settings: ThemeSettings, id: int)
    requires id in contexts
    ensures var r := Reconciled(contexts, previous, settings); id in r ==> r[id] == contexts[id]
  {
  }

  /** A new entry appears only when the identity sets differ, only for the cloud
      theme of the new snapshot, and it holds that reference without auto-night. */
  lemma ReconciledStartsOnlyCloud(contexts: map<int, Context>, previous: Option<ThemeSettings>, settings: ThemeSettings, id: int)
    requires id !in contexts
    requires id in Reconciled(contexts, previous, settings)
    ensures PreviousIds(previous) != ValidIds(settings)
    ensures settings.theme.Cloud? && id == settings.theme.Index()
    ensures Reconciled(contexts, previous, settings)[id] == Context(settings.theme, false)
  {
  }

  /** When the identity sets differ, the new cloud identity is registered. */
  lemma ReconciledStartsMissing(contexts: map<int, Context>, previous: Option<ThemeSettings>, settings: ThemeSettings)
    requires PreviousIds(previous) != ValidIds(settings)
    requires settings.theme.Cloud?
    ensures settings.theme.Index() in Reconciled(contexts, previous, settings)
  {
    var id := settings.theme.Index();
    assert id in ValidIds(settings);
    if id !in contexts {
      assert id in Started(contexts, ValidIds(settings), Themes(settings));
    }
  }

  /** Only identities of the previous snapshot that are no longer valid are removed,
      and when the identity sets differ all of them are. */
  lemma ReconciledRemovesOnlyDropped(contexts: map<int, Context>, previous: Option<ThemeSettings>, settings: ThemeSettings, id: int)
    ensures id in contexts && id !in Reconciled(contexts, previous, settings) ==>
              id in PreviousIds(previous) && id !in ValidIds(settings)
    ensures PreviousIds(previous) != ValidIds(settings) && id in PreviousIds(previous) && id !in ValidIds(settings) ==>
              id !in Reconciled(contexts, previous, settings)
  {
  }

  /** Reconciliation preserves the registry invariant, so the registry never holds
      more than one entry. */
  lemma ReconciledPreservesInvariant(contexts: map<int, Context>, previous: Option<ThemeSettings>, settings: ThemeSettings)
    requires RegistryInvariant(contexts, previous)
    ensures RegistryInvariant(Reconciled(contexts, previous, settings), Some(settings))
    ensures |Reconciled(contexts, previous, settings)| <= 1
  {
    var r := Reconciled(contexts, previous, settings);
    assert contexts.Keys <= PreviousIds(previous) by {
      if previous.Some? {
        assert ValidIds(previous.value) <= PreviousIds(previous);
      }
    }
    forall id | id in r
      ensures id in ValidIds(settings)
    {
      if id !in contexts {
        ReconciledStartsOnlyCloud(contexts, previous, settings, id);
      }
    }
    assert r.Keys <= ValidIds(settings);
    assert |r.Keys| <= |ValidIds(settings)| by {
      SubsetCardinality(r.Keys, ValidIds(settings));
    }
  }

  lemma HasElement(s: set<int>)
    requires s != {}
    ensures exists x :: x in s
  {
    if forall x :: x !in s {
      assert false;
    }
  }

  lemma SubsetCardinality(a: set<int>, b: set<int>)
    requires a <= b
    ensures |a| <= |b|
  {
    assert b == a + (b - a);
  }

  /** The registry holds exactly the cloud identity of the new snapshot, provided it
      did so before and the switch is not from a non-cloud theme to a cloud theme
      with the same index. */
  lemma ReconciledExact(contexts: map<int, Context>, previous: Option<ThemeSettings>, settings: ThemeSettings)
    requires RegistryInvariant(contexts, previous) && ExactRegistry(contexts, previous)
    requires !IndexCollision(previous, settings)
    ensures ExactRegistry(Reconciled(contexts, previous, settings), Some(settings))
  {
    var r := Reconciled(contexts, previous, settings);
    ReconciledPreservesInvariant(contexts, previous, settings);
    if settings.theme.Cloud? {
      var id := settings.theme.Index();
      if PreviousIds(previous) != ValidIds(settings) {
        ReconciledStartsMissing(contexts, previous, settings);
      } else {
        assert previous.Some? && previous.value.theme.Index() == id;
        assert previous.value.theme.Cloud?;
        assert id in contexts;
      }
      assert id in r;
    }
  }

  /** A switch from a non-cloud theme to a cloud theme with the same index starts
      no task: the registry stays empty although a cloud theme is selected. */
  lemma ReconciledIndexCollision(contexts: map<int, Context>, previous: Option<ThemeSettings>, settings: ThemeSettings)
    requires RegistryInvariant(contexts, previous)
    requires IndexCollision(previous, settings)
    ensures Reconciled(contexts, previous, settings) == map[]
    ensures ValidIds(settings) == {settings.theme.Index()}
  {
    assert ValidIds(previous.value) == {};
  }

  /** Once a collision has left the registry empty, delivering cloud snapshots of
      that same index keeps it empty, although none of these deliveries is itself a
      collision: no task runs for as long as that cloud theme stays selected. */
  lemma ReconciledStaysEmptyAfterCollision(previous: ThemeSettings, settings: ThemeSettings)
    requires previous.theme.Cloud? && settings.theme.Cloud?
    requires settings.theme.Index() == previous.theme.Index()
    ensures RegistryInvariant(map[], Some(previous)) && !IndexCollision(Some(previous), settings)
    ensures Reconciled(map[], Some(previous), settings) == map[]
    ensures !ExactRegistry(Reconciled(map[], Some(previous), settings), Some(settings))
  {
    assert settings.theme.Index() in ValidIds(settings);
  }

  /** The feedback loop the write guard guards against: when a task's write is
      delivered back and keeps the cloud index, the registry does not change. */
  lemma WriteBackNoChurn(contexts: map<int, Context>, previous: ThemeSettings, defaults: ThemeSettings, e: Emission)
    requires previous.theme.Cloud? && e.updatedTheme.Cloud?
    requires e.updatedTheme.Index() == previous.theme.Index()
    ensures Reconciled(contexts, Some(previous), Persistence.UpdatedSettings(Some(previous), defaults, e.updatedTheme, e.presentationTheme)) == contexts
  {
  }

  /** Switching from one cloud theme to a cloud theme of another identity disposes
      of the old task and registers a new one for the new identity. */
  lemma ReconciledSwitch(contexts: map<int, Context>, previous: ThemeSettings, settings: ThemeSettings)
    requires RegistryInvariant(contexts, Some(previous))
    requires previous.theme.Cloud? && settings.theme.Cloud?
    requires previous.theme.Index() != settings.theme.Index()
    ensures Reconciled(contexts, Some(previous), settings) == map[settings.theme.Index() := Context(settings.theme, false)]
  {
    var r, id := Reconciled(contexts, Some(previous), settings), settings.theme.Index();
    ReconciledPreservesInvariant(contexts, Some(previous), settings);
    ReconciledStartsMissing(contexts, Some(previous), settings);
    assert id !in contexts;
    assert r.Keys == {id};
  }

  /** No delivery in the run switches from a non-cloud theme to a cloud theme with the same index. */
  predicate NoCollisions(last: Option<ThemeSettings>, snapshots: seq<ThemeSettings>)
    decreases |snapshots|
  {
    snapshots == [] || (!IndexCollision(last, snapshots[0]) && NoCollisions(Some(snapshots[0]), snapshots[1..]))
  }

  /** Over a run without index collisions, started from an exact registry, the
      registry keys are exactly the cloud identities of the last snapshot. */
  lemma {:induction false} DeliverAllExact(contexts: map<int, Context>, last: Option<ThemeSettings>, snapshots: seq<ThemeSettings>)
    requires RegistryInvariant(contexts, last) && ExactRegistry(contexts, last)
    requires NoCollisions(last, snapshots)
    ensures ExactRegistry(DeliverAll(contexts, last, snapshots).0, DeliverAll(contexts, last, snapshots).1)
    decreases |snapshots|
  {
    if snapshots != [] {
      ReconciledPreservesInvariant(contexts, last, snapshots[0]);
      ReconciledExact(contexts, last, snapshots[0]);
      DeliverAllExact(Reconciled(contexts, last, snapshots[0]), Some(snapshots[0]), snapshots[1..]);
    }
  }

  /** Over any sequence of snapshots delivered to a fresh manager the registry
      invariant holds, and the last snapshot delivered is the one remembered. */
  lemma {:induction false} DeliverAllInvariant(contexts: map<int, Context>, last: Option<ThemeSettings>, snapshots: seq<ThemeSettings>)
    requires RegistryInvariant(contexts, last)
    ensures RegistryInvariant(DeliverAll(contexts, last, snapshots).0, DeliverAll(contexts, last, snapshots).1)
    ensures |DeliverAll(contexts, last, snapshots).0| <= 1
    ensures snapshots != [] ==> DeliverAll(contexts, last, snapshots).1 == Some(snapshots[|snapshots| - 1])
    ensures snapshots == [] ==> DeliverAll(contexts, last, snapshots) == (contexts, last)
    decreases |snapshots|
  {
    if snapshots == [] {
      assert |contexts.Keys| <= 1 by {
        if last.Some? {
          SubsetCardinality(contexts.Keys, ValidIds(last.value));
        }
      }
    } else {
      ReconciledPreservesInvariant(contexts, last, snapshots[0]);
      DeliverAllInvariant(Reconciled(contexts, last, snapshots[0]), Some(snapshots[0]), snapshots[1..]);
      if |snapshots| > 1 {
        assert snapshots[1..][|snapshots[1..]| - 1] == snapshots[|snapshots| - 1];
      }
    }
  }

  /** The theme update manager: the registry and the last snapshot delivered to it. */
  class ThemeUpdateManager {
    var contexts: map<int, Context>
    var currentThemeSettings: Option<ThemeSettings>

    ghost predicate Valid()
      reads this
    {
      RegistryInvariant(contexts, currentThemeSettings)
    }

    constructor ()
      ensures Valid()
      ensures contexts == map[] && currentThemeSettings == None
    {
      contexts := map[];
      currentThemeSettings := None;
    }

    /** The settings observer: an absent shared-data entry is delivered as the defaults. */
    method SharedDataUpdated(entry: Option<ThemeSettings>, defaults: ThemeSettings) returns (ghost started: set<int>)
      modifies this
      ensures currentThemeSettings == Some(CurrentOrDefault(entry, defaults))
      ensures contexts == Reconciled(old(contexts), old(currentThemeSettings), CurrentOrDefault(entry, defaults))
      ensures started == StartedIds(old(contexts), old(currentThemeSettings), CurrentOrDefault(entry, defaults))
      ensures old(Valid()) ==> Valid()
    {
      started := PresentationThemeSettingsUpdated(CurrentOrDefault(entry, defaults));
    }

    /** The first loop of reconciliation: registers a context for every identity of
        `validIds` not yet registered whose reference is a cloud theme. */
    method StartMissing(validIds: set<int>, themes: map<int, (ThemeReference, bool)>) returns (ghost started: set<int>)
      modifies this
      ensures currentThemeSettings == old(currentThemeSettings)
      ensures contexts == old(contexts) + Started(old(contexts), validIds, themes)
      ensures started == Started(old(contexts), validIds, themes).Keys
    {
      started := {};
      var pending := validIds;
      while pending != {}
        invariant pending <= validIds
        invariant currentThemeSettings == old(currentThemeSettings)
        invariant contexts == old(contexts) + Started(old(contexts), validIds - pending, themes)
        invariant started == Started(old(contexts), validIds - pending, themes).Keys
        decreases pending
      {
        HasElement(pending);
        var id :| id in pending;
        if id in contexts {
          assert id in old(contexts);
        } else if id in themes && themes[id].0.Cloud? {
          contexts := contexts[id := Context(themes[id].0, themes[id].1)];
          started := started + {id};
        }
        assert Started(old(contexts), validIds - (pending - {id}), themes)
            == Started(old(contexts), validIds - pending, themes) + Started(old(contexts), {id}, themes);
        pending := pending - {id};
      }
      assert validIds - pending == validIds;
    }

    /** The second loop of reconciliation: removes every identity of `previousIds`
        that is not in `validIds`, which disposes of its task. */
    method DropStale(previousIds: set<int>, validIds: set<int>)
      modifies this
      ensures currentThemeSettings == old(currentThemeSettings)
      ensures contexts == old(contexts) - (previousIds - validIds)
    {
      var dropping := previousIds;
      while dropping != {}
        invariant dropping <= previousIds
        invariant currentThemeSettings == old(currentThemeSettings)
        invariant contexts == old(contexts) - ((previousIds - dropping) - validIds)
        decreases dropping
      {
        HasElement(dropping);
        var id :| id in dropping;
        if id !in validIds {
          contexts := contexts - {id};
        }
        dropping := dropping - {id};
      }
      assert (previousIds - dropping) - validIds == previousIds - validIds;
    }

    /** Reconciles the registry against a newly delivered snapshot. */
    method PresentationThemeSettingsUpdated(themeSettings: ThemeSettings) returns (ghost started: set<int>)
      modifies this
      ensures currentThemeSettings == Some(themeSettings)
      ensures contexts == Reconciled(old(contexts), old(currentThemeSettings), themeSettings)
      ensures old(Valid()) ==> Valid()
      // The identities whose task this delivery starts: none are already registered,
      // and every other entry is the old one, untouched.
      ensures started == StartedIds(old(contexts), old(currentThemeSettings), themeSettings)
      ensures started !! old(contexts).Keys
      ensures forall id | id in contexts && id !in started :: id in old(contexts) && contexts[id] == old(contexts)[id]
    {
      started := {};
      ghost var wasValid := Valid();
      var previousThemeSettings := currentThemeSettings;
      currentThemeSettings := Some(themeSettings);

      var previousIds: set<int> := {};
      if previousThemeSettings.Some? {
        previousIds := previousIds + {previousThemeSettings.value.theme.Index()};
      }

      var validIds: set<int> := {};
      var themes: map<int, (ThemeReference, bool)> := map[];
      if themeSettings.theme.Cloud? {
        validIds := validIds + {themeSettings.theme.Index()};
        themes := themes[themeSettings.theme.Index() := (themeSettings.theme, false)];
      }
      assert previousIds == PreviousIds(previousThemeSettings);
      assert validIds == ValidIds(themeSettings) && themes == Themes(themeSettings);

      if previousIds != validIds {
        started := StartMissing(validIds, themes);
        DropStale(previousIds, validIds);
      }
      if wasValid {
        ReconciledPreservesInvariant(old(contexts), previousThemeSettings, themeSettings);
      }
      ReconciledOnlyStartedAreNew(old(contexts), previousThemeSettings, themeSettings);
    }
  }
}
