/**
 * The shape of a mod as the collection cache and the serialisers see it: game
 * paths, file paths, sub-mods (options), option groups, mods and a
 * collection's per-mod settings.  Dictionaries of the source become
 * sequences of pairs in their enumeration order.
 */
module Mods {
  import opened Common
  import opened MetaManipulations

  /** A path inside the game's file system (`Utf8GamePath`). */
  datatype GamePath = GamePath(path: string)

  /**
   * A file on disk or a game path used as a redirect target (`FullPath`):
   * its name, its UTF-8 bytes and whether it is rooted (an absolute path).
   */
  datatype FullPath = FullPath(fullName: string, internalName: seq<bv8>, isRooted: bool)

  /** One option of a mod (`ISubMod`). */
  datatype SubMod = SubMod(
    name: string,
    files: seq<(GamePath, FullPath)>,
    fileSwaps: seq<(GamePath, FullPath)>,
    manipulations: seq<MetaManipulation>)

  datatype SelectType = Single | Multi

  /** An option with its priority inside a multi-select group; single-select options carry 0. */
  datatype GroupOption = GroupOption(subMod: SubMod, priority: int)

  /** An option group (`IModGroup`). */
  datatype ModGroup = ModGroup(name: string, kind: SelectType, priority: int, options: seq<GroupOption>)

  /**
   * A mod as the cache sees it (`IMod`): its index in the mod list (negative
   * for temporary mods), its own priority (used when it has no index), its
   * groups and its default option.  `id` stands for object identity.
   */
  datatype IMod = IMod(id: int, index: int, priority: int, groups: seq<ModGroup>, defaultOption: SubMod)

  /** The settings of one mod in one collection: enabled, priority and one selection word per group. */
  datatype ModSettings = ModSettings(enabled: bool, priority: int, settings: seq<bv32>)

  /** The files and swaps a sub-mod redirects, files first. */
  function Redirections(s: SubMod): (r: seq<(GamePath, FullPath)>)
    ensures |r| == |s.files| + |s.fileSwaps|
  {
    s.files + s.fileSwaps
  }

  /** The options of a group, in order. */
  function GroupSubMods(g: ModGroup): (r: seq<SubMod>)
    ensures |r| == |g.options|
    ensures forall i :: 0 <= i < |r| ==> r[i] == g.options[i].subMod
  {
    seq(|g.options|, i requires 0 <= i < |g.options| => g.options[i].subMod)
  }

  function GroupsSubMods(gs: seq<ModGroup>): seq<SubMod>
    decreases |gs|
  {
    if gs == [] then [] else GroupSubMods(gs[0]) + GroupsSubMods(gs[1..])
  }

  /** `IMod.AllSubMods`: the default option followed by every group's options. */
  function AllSubMods(m: IMod): (r: seq<SubMod>)
    ensures |r| >= 1 && r[0] == m.defaultOption
  {
    [m.defaultOption] + GroupsSubMods(m.groups)
  }

  function ConcatRedirections(subs: seq<SubMod>): seq<(GamePath, FullPath)>
    decreases |subs|
  {
    if subs == [] then [] else Redirections(subs[0]) + ConcatRedirections(subs[1..])
  }

  function ConcatManipulations(subs: seq<SubMod>): seq<MetaManipulation>
    decreases |subs|
  {
    if subs == [] then [] else subs[0].manipulations + ConcatManipulations(subs[1..])
  }

  /** `IMod.TotalManipulations`. */
  function TotalManipulations(m: IMod): nat {
    |ConcatManipulations(AllSubMods(m))|
  }
}
