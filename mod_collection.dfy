/**
 * A collection's own bookkeeping (`ModCollection`): one settings slot per
 * installed mod, in mod-list order, and the settings of mods that are no
 * longer installed, kept under the mod's directory name until they are
 * cleaned up.  Mods are represented here by their directory names; the
 * conversion between live and saved settings (`ModSettings.SavedSettings`)
 * is passed in as `toSaved` / `toSettings`, and the saved form is the type
 * parameter `Saved`.
 */
module ModCollections {
  import opened Common
  import opened Mods

  const CurrentVersion := 1
  const DefaultCollection := "Default"
  const EmptyCollection := "None"

  /**
   * A character allowed in a collection name: not invalid ASCII, not '|',
   * not invalid in a path.  The two character classes are parameters.
   */
  predicate ValidNameChar(c: char, invalidAscii: char -> bool, invalidInPath: char -> bool) {
    !invalidAscii(c) && c != '|' && !invalidInPath(c)
  }

  /** `IsValidName`: non-empty and made of valid characters (uniqueness is not checked). */
  predicate IsValidName(name: string, invalidAscii: char -> bool, invalidInPath: char -> bool)
    ensures IsValidName(name, invalidAscii, invalidInPath) <==>
      name != [] && '|' !in name && forall c :: c in name ==> !invalidAscii(c) && !invalidInPath(c)
  {
    |name| > 0 && forall i :: 0 <= i < |name| ==> ValidNameChar(name[i], invalidAscii, invalidInPath)
  }

  /** A valid name never contains the '|' that delimits collection tags in resolved paths. */
  lemma ValidNameHasNoBar(name: string, invalidAscii: char -> bool, invalidInPath: char -> bool)
    requires IsValidName(name, invalidAscii, invalidInPath)
    ensures '|' !in name && name != []
  {
  }

  /**
   * The name of a temporary collection, `tag_characterName`, is valid
   * exactly when both parts consist of valid characters and '_' is valid.
   */
  lemma TemporaryNameValid(tag: string, characterName: string, invalidAscii: char -> bool, invalidInPath: char -> bool)
    ensures IsValidName(tag + "_" + characterName, invalidAscii, invalidInPath) <==>
      (ValidNameChar('_', invalidAscii, invalidInPath)
       && (forall i :: 0 <= i < |tag| ==> ValidNameChar(tag[i], invalidAscii, invalidInPath))
       && (forall i :: 0 <= i < |characterName| ==> ValidNameChar(characterName[i], invalidAscii, invalidInPath)))
  {
    var n := tag + "_" + characterName;
    assert n[|tag|] == '_';
    assert forall i :: 0 <= i < |tag| ==> n[i] == tag[i];
    assert forall i :: 0 <= i < |characterName| ==> n[|tag| + 1 + i] == characterName[i];
  }

  /** The index shown after an anonymised name. */
  function IndexTag(index: int): (r: string)
    ensures |r| >= 4 && r[..2] == " (" && r[|r| - 1] == ')'
    ensures forall k :: 2 <= k < |r| - 1 ==> r[k] == '-' || '0' <= r[k] <= '9'
  {
    NatToStringDigits(if index < 0 then -index else index);
    " (" + IntToString(index) + ")"
  }

  // ---------------------------------------------------------------------
  // Settings moving into the list (`AddMod`, `ApplyModSettings`)

  /** What one `AddMod` does: whether settings were fixed, the appended slot, the unused settings after. */
  datatype Adoption<Saved> = Adoption(fixed: bool, slot: Option<ModSettings>, unused: map<string, Saved>)

  function Adopt<Saved>(unused: map<string, Saved>, dir: string,
                        toSettings: (Saved, string) -> (bool, ModSettings)): (r: Adoption<Saved>)
    ensures r.slot.Some? <==> dir in unused
    ensures r.unused == unused - {dir}
    ensures r.fixed ==> dir in unused
    ensures dir in unused ==> r.slot.value == toSettings(unused[dir], dir).1
  {
    if dir in unused then
      Adoption(toSettings(unused[dir], dir).0, Some(toSettings(unused[dir], dir).1), unused - {dir})
    else
      Adoption(false, None, unused)
  }

  /** What `ApplyModSettings` does: the settings list, the unused settings and whether any setting was fixed. */
  datatype Applied<Saved> = Applied(slots: seq<Option<ModSettings>>, unused: map<string, Saved>, fixed: bool)

  /** `AddMod` for each directory in turn, starting from `slots` and `unused`. */
  function AdoptAll<Saved>(slots: seq<Option<ModSettings>>, unused: map<string, Saved>, dirs: seq<string>,
                           toSettings: (Saved, string) -> (bool, ModSettings)): Applied<Saved>
    decreases |dirs|
  {
    if dirs == [] then Applied(slots, unused, false)
    else
      var a := Adopt(unused, dirs[0], toSettings);
      var rest := AdoptAll(slots + [a.slot], a.unused, dirs[1..], toSettings);
      Applied(rest.slots, rest.unused, a.fixed || rest.fixed)
  }

  /** `ApplyModSettings` appends one slot per mod and leaves the existing slots alone. */
  lemma {:induction false} AdoptAllAppends<Saved>(slots: seq<Option<ModSettings>>, unused: map<string, Saved>,
                                                  dirs: seq<string>, toSettings: (Saved, string) -> (bool, ModSettings))
    ensures |AdoptAll(slots, unused, dirs, toSettings).slots| == |slots| + |dirs|
    ensures AdoptAll(slots, unused, dirs, toSettings).slots[..|slots|] == slots
    decreases |dirs|
  {
    if dirs != [] {
      var a := Adopt(unused, dirs[0], toSettings);
      AdoptAllAppends(slots + [a.slot], a.unused, dirs[1..], toSettings);
      var r := AdoptAll(slots + [a.slot], a.unused, dirs[1..], toSettings).slots;
      assert r[..|slots|] == r[..|slots| + 1][..|slots|];
    }
  }

  /** Every saved setting whose directory is in the mod list leaves the unused settings; the rest stay. */
  lemma {:induction false} AdoptAllClaims<Saved>(slots: seq<Option<ModSettings>>, unused: map<string, Saved>,
                                                 dirs: seq<string>, toSettings: (Saved, string) -> (bool, ModSettings))
    ensures AdoptAll(slots, unused, dirs, toSettings).unused == unused - set d | d in dirs
    decreases |dirs|
  {
    if dirs != [] {
      var a := Adopt(unused, dirs[0], toSettings);
      AdoptAllClaims(slots + [a.slot], a.unused, dirs[1..], toSettings);
      assert (set d | d in dirs) == {dirs[0]} + set d | d in dirs[1..];
    }
  }

  /**
   * With distinct directory names, the slot of mod `i` holds the converted
   * saved settings when there were any for its directory, and null otherwise.
   */
  lemma {:induction false} AdoptAllSlot<Saved>(slots: seq<Option<ModSettings>>, unused: map<string, Saved>,
                                               dirs: seq<string>, toSettings: (Saved, string) -> (bool, ModSettings), i: int)
    requires 0 <= i < |dirs|
    requires forall j, k :: 0 <= j < k < |dirs| ==> dirs[j] != dirs[k]
    ensures |AdoptAll(slots, unused, dirs, toSettings).slots| == |slots| + |dirs|
    ensures AdoptAll(slots, unused, dirs, toSettings).slots[|slots| + i] ==
      (if dirs[i] in unused then Some(toSettings(unused[dirs[i]], dirs[i]).1) else None)
    decreases |dirs|
  {
    AdoptAllAppends(slots, unused, dirs, toSettings);
    var a := Adopt(unused, dirs[0], toSettings);
    var rest := AdoptAll(slots + [a.slot], a.unused, dirs[1..], toSettings);
    AdoptAllAppends(slots + [a.slot], a.unused, dirs[1..], toSettings);
    if i == 0 {
      assert rest.slots[..|slots| + 1][|slots|] == a.slot;
    } else {
      assert dirs[1..][i - 1] == dirs[i];
      AdoptAllSlot(slots + [a.slot], a.unused, dirs[1..], toSettings, i - 1);
      assert dirs[i] != dirs[0];
    }
  }

  /** `ApplyModSettings` asks for a save exactly when some mod's saved settings had to be fixed. */
  lemma {:induction false} AdoptAllFixed<Saved>(slots: seq<Option<ModSettings>>, unused: map<string, Saved>,
                                                dirs: seq<string>, toSettings: (Saved, string) -> (bool, ModSettings))
    requires forall j, k :: 0 <= j < k < |dirs| ==> dirs[j] != dirs[k]
    ensures AdoptAll(slots, unused, dirs, toSettings).fixed <==>
      exists i :: 0 <= i < |dirs| && dirs[i] in unused && toSettings(unused[dirs[i]], dirs[i]).0
    decreases |dirs|
  {
    if dirs != [] {
      var a := Adopt(unused, dirs[0], toSettings);
      AdoptAllFixed(slots + [a.slot], a.unused, dirs[1..], toSettings);
      if exists i :: 0 <= i < |dirs| && dirs[i] in unused && toSettings(unused[dirs[i]], dirs[i]).0 {
        var i :| 0 <= i < |dirs| && dirs[i] in unused && toSettings(unused[dirs[i]], dirs[i]).0;
        if i > 0 {
          assert dirs[1..][i - 1] == dirs[i] && dirs[i] in a.unused;
        }
      }
      if AdoptAll(slots + [a.slot], a.unused, dirs[1..], toSettings).fixed {
        var i :| 0 <= i < |dirs[1..]| && dirs[1..][i] in a.unused && toSettings(a.unused[dirs[1..][i]], dirs[1..][i]).0;
        assert dirs[i + 1] in unused;
      }
    }
  }

  // ---------------------------------------------------------------------
  // Settings moving out of the list (`RemoveMod`, `PrepareModDiscovery`)

  /**
   * `PrepareModDiscovery` on values: for the mod list zipped with the
   * settings (the shorter one decides), every non-null setting is saved under
   * its mod's directory name, later entries overwriting earlier ones.
   */
  function Stash<Saved>(unused: map<string, Saved>, dirs: seq<string>, slots: seq<Option<ModSettings>>,
                        toSaved: (ModSettings, string) -> Saved): map<string, Saved>
    decreases |dirs|
  {
    if dirs == [] || slots == [] then unused
    else
      var next := if slots[0].Some? then unused[dirs[0] := toSaved(slots[0].value, dirs[0])] else unused;
      Stash(next, dirs[1..], slots[1..], toSaved)
  }

  /** The unused settings after discovery: the old ones plus every directory paired with a non-null setting. */
  lemma {:induction false} StashKeys<Saved>(unused: map<string, Saved>, dirs: seq<string>, slots: seq<Option<ModSettings>>,
                                            toSaved: (ModSettings, string) -> Saved)
    ensures Stash(unused, dirs, slots, toSaved).Keys ==
      unused.Keys + set i | 0 <= i < |dirs| && i < |slots| && slots[i].Some? :: dirs[i]
    decreases |dirs|
  {
    if dirs != [] && slots != [] {
      var next := if slots[0].Some? then unused[dirs[0] := toSaved(slots[0].value, dirs[0])] else unused;
      StashKeys(next, dirs[1..], slots[1..], toSaved);
      var all := set i | 0 <= i < |dirs| && i < |slots| && slots[i].Some? :: dirs[i];
      var tail := set i | 0 <= i < |dirs[1..]| && i < |slots[1..]| && slots[1..][i].Some? :: dirs[1..][i];
      forall d | d in all
        ensures d in next.Keys + tail
      {
        var i :| 0 <= i < |dirs| && i < |slots| && slots[i].Some? && dirs[i] == d;
        if i > 0 {
          assert dirs[1..][i - 1] == d && slots[1..][i - 1].Some?;
        }
      }
      forall d | d in tail
        ensures d in all
      {
        var i :| 0 <= i < |dirs[1..]| && i < |slots[1..]| && slots[1..][i].Some? && dirs[1..][i] == d;
        assert dirs[i + 1] == d && slots[i + 1].Some?;
      }
    }
  }

  /** With distinct directory names, each non-null setting is saved under its own mod's name. */
  lemma {:induction false} StashValue<Saved>(unused: map<string, Saved>, dirs: seq<string>, slots: seq<Option<ModSettings>>,
                                             toSaved: (ModSettings, string) -> Saved, i: int)
    requires 0 <= i < |dirs| && i < |slots| && slots[i].Some?
    requires forall j, k :: 0 <= j < k < |dirs| ==> dirs[j] != dirs[k]
    ensures dirs[i] in Stash(unused, dirs, slots, toSaved)
    ensures Stash(unused, dirs, slots, toSaved)[dirs[i]] == toSaved(slots[i].value, dirs[i])
    decreases |dirs|
  {
    var next := if slots[0].Some? then unused[dirs[0] := toSaved(slots[0].value, dirs[0])] else unused;
    if i == 0 {
      StashKeeps(next, dirs[1..], slots[1..], toSaved, dirs[0]);
    } else {
      assert dirs[1..][i - 1] == dirs[i] && slots[1..][i - 1] == slots[i];
      StashValue(next, dirs[1..], slots[1..], toSaved, i - 1);
    }
  }

  /** A directory that does not occur in the zipped mod list keeps its entry. */
  lemma {:induction false} StashKeeps<Saved>(unused: map<string, Saved>, dirs: seq<string>, slots: seq<Option<ModSettings>>,
                                             toSaved: (ModSettings, string) -> Saved, d: string)
    requires d in unused && d !in dirs
    ensures d in Stash(unused, dirs, slots, toSaved) && Stash(unused, dirs, slots, toSaved)[d] == unused[d]
    decreases |dirs|
  {
    if dirs != [] && slots != [] {
      var next := if slots[0].Some? then unused[dirs[0] := toSaved(slots[0].value, dirs[0])] else unused;
      assert d != dirs[0] && d !in dirs[1..];
      StashKeeps(next, dirs[1..], slots[1..], toSaved, d);
    }
  }

  /**
   * Removing a mod and installing it again brings its settings back: the
   * setting saved by `RemoveMod` is what `AddMod` converts into the new slot,
   * and the unused settings are as before.
   */
  lemma RemoveThenAdd<Saved>(unused: map<string, Saved>, dir: string, s: ModSettings,
                             toSaved: (ModSettings, string) -> Saved, toSettings: (Saved, string) -> (bool, ModSettings))
    requires dir !in unused
    ensures Adopt(unused[dir := toSaved(s, dir)], dir, toSettings).slot == Some(toSettings(toSaved(s, dir), dir).1)
    ensures Adopt(unused[dir := toSaved(s, dir)], dir, toSettings).unused == unused
  {
  }

  // ---------------------------------------------------------------------

  /** A named set of settings for the installed mods (`ModCollection`). */
  class ModCollection<Saved> {
    const name: string
    var version: int
    /** The collection's index in the collection manager; 0 for Empty, negative for temporary collections. */
    var index: int
    /** One slot per installed mod; null means inherited (or disabled when nothing provides it). */
    var settings: seq<Option<ModSettings>>
    /** Settings of mods that are not installed, by directory name. */
    var unusedSettings: map<string, Saved>

    /**
     * The constructor for reading a collection from its file: the saved
     * settings are distributed over the installed mods `dirs`.
     */
    constructor FromFile(name: string, version: int, allSettings: map<string, Saved>, dirs: seq<string>,
                         toSettings: (Saved, string) -> (bool, ModSettings))
      ensures this.name == name && this.version == version && index == -1
      ensures settings == AdoptAll([], allSettings, dirs, toSettings).slots
      ensures unusedSettings == AdoptAll([], allSettings, dirs, toSettings).unused
    {
      this.name := name;
      this.version := version;
      index := -1;
      unusedSettings := allSettings;
      settings := [];
      new;
      var _ := ApplyModSettings(dirs, toSettings);
    }

    /** The constructor for duplication: same version and settings, a new name, index -1. */
    constructor Duplicate(name: string, duplicate: ModCollection<Saved>)
      ensures this.name == name && version == duplicate.version && index == -1
      ensures settings == duplicate.settings && unusedSettings == duplicate.unusedSettings
    {
      this.name := name;
      version := duplicate.version;
      index := -1;
      settings := duplicate.settings;
      unusedSettings := duplicate.unusedSettings;
    }

    /** `CreateNewEmpty`: current version, no saved settings, so a null slot for every installed mod. */
    static method CreateNewEmpty(name: string, dirs: seq<string>, toSettings: (Saved, string) -> (bool, ModSettings))
      returns (c: ModCollection<Saved>)
      ensures fresh(c)
      ensures c.name == name && c.version == CurrentVersion && c.index == -1
      ensures |c.settings| == |dirs| && (forall i :: 0 <= i < |dirs| ==> c.settings[i] == None)
      ensures c.unusedSettings == map[]
    {
      c := new ModCollection.FromFile(name, CurrentVersion, map[], dirs, toSettings);
      AdoptAllAppends([], map[], dirs, toSettings);
      AdoptAllClaims([], map[], dirs, toSettings);
      forall i | 0 <= i < |dirs|
        ensures c.settings[i] == None
      {
        AdoptAllNothingSaved([], dirs, toSettings, i);
      }
    }

    /** `CreateEmpty`: the collection "None" at index 0, with no settings at all. */
    static method CreateEmpty(dirs: seq<string>, toSettings: (Saved, string) -> (bool, ModSettings))
      returns (c: ModCollection<Saved>)
      ensures fresh(c)
      ensures c.name == EmptyCollection && c.index == 0 && c.settings == [] && c.unusedSettings == map[]
    {
      c := CreateNewEmpty(EmptyCollection, dirs, toSettings);
      c.index := 0;
      c.settings := [];
    }

    /**
     * `CreateNewTemporary`: a copy of Empty named `tag_characterName`, whose
     * index is the complement of the number of temporary collections.
     */
    static method CreateNewTemporary(tag: string, characterName: string, tempCount: nat, empty: ModCollection<Saved>)
      returns (c: ModCollection<Saved>)
      ensures fresh(c)
      ensures c.name == tag + "_" + characterName
      ensures c.index == Complement(tempCount) && c.index < 0
      ensures c.settings == empty.settings && c.unusedSettings == empty.unusedSettings
    {
      c := new ModCollection.Duplicate(tag + "_" + characterName, empty);
      c.index := Complement(tempCount);
    }

    /**
     * `AnonymizedName`: Empty's name for Empty; otherwise at most the first
     * two characters of the name, then the index.
     */
    function AnonymizedName(empty: ModCollection<Saved>): (r: string)
      reads this, empty
      ensures this == empty ==> r == empty.name
      ensures this != empty ==> |r| >= |IndexTag(index)| && r[|r| - |IndexTag(index)|..] == IndexTag(index)
      ensures this != empty && |name| > 2 ==> |r| == 5 + |IndexTag(index)| && r[..5] == name[..2] + "..."
      ensures this != empty && |name| <= 2 ==> |r| == |name| + |IndexTag(index)| && r[..|name|] == name
    {
      if this == empty then empty.name
      else if |name| > 2 then name[..2] + "..." + IndexTag(index)
      else name + IndexTag(index)
    }

    /** `CleanUnavailableSettings`: forget all unused settings; `saved` says whether a save is requested. */
    method CleanUnavailableSettings() returns (saved: bool)
      modifies this
      ensures unusedSettings == map[] && saved == (old(unusedSettings) != map[])
      ensures settings == old(settings) && index == old(index) && version == old(version)
    {
      saved := |unusedSettings| > 0;
      unusedSettings := map[];
    }

    /**
     * `AddMod`: append the slot of a newly appended mod, taking its saved
     * settings out of the unused settings when there are any; `fixed` is
     * whether converting them changed anything.
     */
    method AddMod(dir: string, toSettings: (Saved, string) -> (bool, ModSettings)) returns (fixed: bool)
      modifies this
      ensures settings == old(settings) + [Adopt(old(unusedSettings), dir, toSettings).slot]
      ensures unusedSettings == Adopt(old(unusedSettings), dir, toSettings).unused
      ensures fixed == Adopt(old(unusedSettings), dir, toSettings).fixed
      ensures index == old(index) && version == old(version)
    {
      if dir in unusedSettings {
        var save := unusedSettings[dir];
        var converted := toSettings(save, dir);
        settings := settings + [Some(converted.1)];
        unusedSettings := unusedSettings - {dir};
        return converted.0;
      }
      settings := settings + [None];
      return false;
    }

    /**
     * `RemoveMod`: drop slot `idx`, moving a non-null setting into the unused
     * settings under the directory name.  `ok` is false where the source
     * throws: an index outside the list, or a directory name that already
     * has unused settings (nothing changes then).
     */
    method RemoveMod(dir: string, idx: int, toSaved: (ModSettings, string) -> Saved) returns (ok: bool)
      modifies this
      ensures ok <==> 0 <= idx < |old(settings)| && !(old(settings)[idx].Some? && dir in old(unusedSettings))
      ensures ok ==> settings == old(settings)[..idx] + old(settings)[idx + 1..]
      ensures ok ==> unusedSettings == (if old(settings)[idx].Some?
                                        then old(unusedSettings)[dir := toSaved(old(settings)[idx].value, dir)]
                                        else old(unusedSettings))
      ensures !ok ==> settings == old(settings) && unusedSettings == old(unusedSettings)
      ensures index == old(index) && version == old(version)
    {
      if idx < 0 || idx >= |settings| {
        return false;
      }
      var s := settings[idx];
      if s.Some? {
        if dir in unusedSettings {
          return false;
        }
        unusedSettings := unusedSettings[dir := toSaved(s.value, dir)];
      }
      settings := settings[..idx] + settings[idx + 1..];
      ok := true;
    }

    /** `PrepareModDiscovery`: save every non-null setting under its mod's directory name and empty the list. */
    method PrepareModDiscovery(dirs: seq<string>, toSaved: (ModSettings, string) -> Saved)
      modifies this
      ensures unusedSettings == Stash(old(unusedSettings), dirs, old(settings), toSaved)
      ensures settings == []
      ensures index == old(index) && version == old(version)
    {
      var i := 0;
      while i < |dirs| && i < |settings|
        invariant 0 <= i <= |dirs| && i <= |settings|
        invariant settings == old(settings) && index == old(index) && version == old(version)
        invariant Stash(unusedSettings, dirs[i..], settings[i..], toSaved) == Stash(old(unusedSettings), dirs, old(settings), toSaved)
      {
        assert dirs[i..][1..] == dirs[i + 1..] && settings[i..][1..] == settings[i + 1..];
        if settings[i].Some? {
          unusedSettings := unusedSettings[dirs[i] := toSaved(settings[i].value, dirs[i])];
        }
        i := i + 1;
      }
      settings := [];
    }

    /**
     * `ApplyModSettings`: `AddMod` for every installed mod in order (every
     * one of them, even after one asked for a save); `saved` says whether
     * any saved settings had to be fixed.
     */
    method ApplyModSettings(dirs: seq<string>, toSettings: (Saved, string) -> (bool, ModSettings)) returns (saved: bool)
      modifies this
      ensures settings == AdoptAll(old(settings), old(unusedSettings), dirs, toSettings).slots
      ensures unusedSettings == AdoptAll(old(settings), old(unusedSettings), dirs, toSettings).unused
      ensures saved == AdoptAll(old(settings), old(unusedSettings), dirs, toSettings).fixed
      ensures index == old(index) && version == old(version)
    {
      saved := false;
      var i := 0;
      while i < |dirs|
        invariant 0 <= i <= |dirs|
        invariant index == old(index) && version == old(version)
        invariant AdoptAll(settings, unusedSettings, dirs[i..], toSettings).slots
          == AdoptAll(old(settings), old(unusedSettings), dirs, toSettings).slots
        invariant AdoptAll(settings, unusedSettings, dirs[i..], toSettings).unused
          == AdoptAll(old(settings), old(unusedSettings), dirs, toSettings).unused
        invariant (saved || AdoptAll(settings, unusedSettings, dirs[i..], toSettings).fixed)
          == AdoptAll(old(settings), old(unusedSettings), dirs, toSettings).fixed
      {
        assert dirs[i..][1..] == dirs[i + 1..];
        var fixed := AddMod(dirs[i], toSettings);
        saved := saved || fixed;
        i := i + 1;
      }
    }
  }

  /** With no saved settings every appended slot is null. */
  lemma {:induction false} AdoptAllNothingSaved<Saved>(slots: seq<Option<ModSettings>>, dirs: seq<string>,
                                                       toSettings: (Saved, string) -> (bool, ModSettings), i: int)
    requires 0 <= i < |dirs|
    ensures |AdoptAll(slots, map[], dirs, toSettings).slots| == |slots| + |dirs|
    ensures AdoptAll(slots, map[], dirs, toSettings).slots[|slots| + i] == None
    decreases |dirs|
  {
    AdoptAllAppends(slots, map[], dirs, toSettings);
    var a := Adopt(map[], dirs[0], toSettings);
    assert a.unused == map[];
    AdoptAllAppends(slots + [a.slot], map[], dirs[1..], toSettings);
    if i == 0 {
      var r := AdoptAll(slots + [a.slot], map[], dirs[1..], toSettings).slots;
      assert r[..|slots| + 1][|slots|] == None;
    } else {
      AdoptAllNothingSaved(slots + [a.slot], dirs[1..], toSettings, i - 1);
    }
  }
}
