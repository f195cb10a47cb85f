/** The dark-mode preference (`DarkModeProvider`): resolved on mount from the stored
    choice or, when nothing is stored, the system setting; mirrored to the document's
    `dark` class and persisted whenever it changes after mount. */
module DarkMode {
  import opened Wrappers
  import opened Storage

  const DARK_MODE_KEY: string := "darkMode"
  const OUTSIDE_PROVIDER: string := "useDarkMode must be used within a DarkModeProvider"

  /** `darkMode.toString()`. */
  function Encode(b: bool): (s: string)
    ensures s == "true" <==> b
    ensures s == "true" || s == "false"
  {
    if b then "true" else "false"
  }

  /** `stored === "true"`: any other text reads as light mode. */
  function Decode(s: string): (b: bool)
    ensures b <==> s == "true"
  {
    s == "true"
  }

  lemma DecodeEncode(b: bool)
    ensures Decode(Encode(b)) == b
  {
  }

  /** The mount-time choice: a stored value wins, whatever it says; only when nothing is
      stored does the system setting decide. */
  function ResolvePreference(stored: Option<string>, systemPrefersDark: bool): (dark: bool)
    ensures stored.None? ==> dark == systemPrefersDark
    ensures stored.Some? ==> (dark <==> stored.value == "true")
  {
    match stored
    case Some(s) => Decode(s)
    case None => systemPrefersDark
  }

  /** A persisted choice is restored on the next mount, whatever the system prefers. */
  lemma PersistedChoiceRestored(b: bool, systemPrefersDark: bool)
    ensures ResolvePreference(Some(Encode(b)), systemPrefersDark) == b
  {
    DecodeEncode(b);
  }

  class DarkModeProvider {
    var darkMode: bool
    var mounted: bool
    /** Whether `document.documentElement` carries the `dark` class. */
    var darkClass: bool
    const storage: LocalStorage

    /** The first render: light mode, not mounted; the document is as the page left it. */
    constructor (storage: LocalStorage, darkClass: bool)
      ensures this.storage == storage
      ensures !darkMode && !mounted && this.darkClass == darkClass
    {
      this.storage := storage;
      darkMode := false;
      mounted := false;
      this.darkClass := darkClass;
    }

    /** The value the context carries: nothing until mounted. */
    function Context(): (c: Option<bool>)
      reads this
      ensures c.Some? <==> mounted
      ensures c.Some? ==> c.value == darkMode
    {
      if mounted then Some(darkMode) else None
    }

    /** `useDarkMode`: the context's dark-mode flag, or the error it throws outside a
        mounted provider. */
    function UseDarkMode(): (r: Result<bool, string>)
      reads this
      ensures r.Success? <==> mounted
      ensures r.Success? ==> r.value == darkMode
      ensures r.Failure? ==> r.error == OUTSIDE_PROVIDER
    {
      if mounted then Success(darkMode) else Failure(OUTSIDE_PROVIDER)
    }

    /** True once the document and the store agree with `darkMode`. */
    ghost predicate Synced()
      reads this, storage
    {
      darkClass == darkMode && storage.GetItem(DARK_MODE_KEY) == Some(Encode(darkMode))
    }

    /** The mount effect: mark mounted and resolve the preference. */
    method MountEffect(systemPrefersDark: bool)
      modifies this`mounted, this`darkMode
      ensures mounted
      ensures darkMode == ResolvePreference(storage.GetItem(DARK_MODE_KEY), systemPrefersDark)
    {
      mounted := true;
      var stored := storage.GetItem(DARK_MODE_KEY);
      if stored.Some? {
        darkMode := stored.value == "true";
      } else {
        darkMode := systemPrefersDark;
      }
    }

    /** The effect on `[darkMode, mounted]`: once mounted, set or clear the class and
        persist the flag; before mount, nothing. */
    method SyncEffect()
      modifies this`darkClass, storage
      ensures mounted ==> Synced()
      ensures mounted ==> storage.items == old(storage.items)[DARK_MODE_KEY := Encode(darkMode)]
      ensures !mounted ==> darkClass == old(darkClass) && storage.items == old(storage.items)
    {
      if mounted {
        if darkMode {
          darkClass := true;
        } else {
          darkClass := false;
        }
        storage.SetItem(DARK_MODE_KEY, if darkMode then "true" else "false");
      }
    }

    /** Mounting: the mount effect, then the sync effect its state change triggers. */
    method Mount(systemPrefersDark: bool)
      modifies this`mounted, this`darkMode, this`darkClass, storage
      ensures mounted && Synced()
      ensures darkMode == ResolvePreference(old(storage.GetItem(DARK_MODE_KEY)), systemPrefersDark)
      ensures storage.items == old(storage.items)[DARK_MODE_KEY := Encode(darkMode)]
    {
      MountEffect(systemPrefersDark);
      SyncEffect();
    }

    /** `toggleDarkMode`, followed by the sync effect of the next render. */
    method ToggleDarkMode()
      modifies this`darkMode, this`darkClass, storage
      ensures darkMode == !old(darkMode)
      ensures mounted ==> Synced()
      ensures mounted ==> storage.items == old(storage.items)[DARK_MODE_KEY := Encode(darkMode)]
      ensures !mounted ==> darkClass == old(darkClass) && storage.items == old(storage.items)
    {
      darkMode := !darkMode;
      SyncEffect();
    }
  }

  /** A choice toggled in one session is the mode of the next session on the same storage,
      whatever the system prefers then. */
  method ToggleThenRemount(storage: LocalStorage, systemBefore: bool, systemAfter: bool)
    returns (before: bool, after: bool)
    modifies storage
    ensures after == before
  {
    var first := new DarkModeProvider(storage, false);
    first.Mount(systemBefore);
    first.ToggleDarkMode();
    before := first.darkMode;
    var second := new DarkModeProvider(storage, first.darkClass);
    second.Mount(systemAfter);
    PersistedChoiceRestored(before, systemAfter);
    after := second.darkMode;
  }
}
