# Penumbra collection cache and meta store, modelled in Dafny

Penumbra is a mod loader for a game client. A *collection* holds one
settings slot per installed mod. A *mod* is a default option plus option
groups. Each option (a *sub-mod*) redirects game paths to files, swaps
files, and carries *meta manipulations*: patches to the game's metadata
tables.

This project models the core that turns a collection's settings into what
the game loads, and proves properties of that model:

- **The resolution cache** (`ModCollection.Cache`), in `cache.dfy` with its
  reference definitions in `cache_spec.dfy` and `emission.dfy`:
  - it replays every enabled mod's options in a fixed order;
  - it decides every contested game path and meta entry by priority;
  - it keeps the conflict graph between mods;
  - it removes and reloads single mods;
  - it counts changes and rebuilds the changed-items index lazily.
- **Meta manipulations** (`MetaManipulation`, `RspManipulation`), in
  `meta_manipulation.dfy`:
  - the tagged union and its category-dispatched equality and hashing;
  - the RSP manipulation's identity, ordering and `Apply`.
- **Meta files** (`MetaBaseFile`, `CmpFile`), in `meta_files.dfy`:
  - the byte buffer and how it grows and shrinks;
  - the racial scaling table's offset arithmetic;
  - resetting that table from the default snapshot.
- **The EST and GMP parts of the meta manager** (`MetaManager.Est`,
  `MetaManager.Gmp`), in `meta_manager.dfy`: lazily created files, a list
  of live manipulations, and reverting to defaults.
- **A collection's settings bookkeeping** (`ModCollection`), in
  `mod_collection.dfy`: settings move between the per-mod slots and the
  unused settings kept under each mod's directory name. This file also
  covers name validity and the anonymised name.
- **Writing an option as JSON** (`ISubMod.WriteSubMod`), in
  `sub_mod_writer.dfy`, as a token emitter with a reader proving the round
  trip.
- **The v0 to v1 mod metadata migration** (`Mod.Migration`), in
  `migration.dfy`.
- **Material loads** (`PathResolver.MaterialState`), in `material.dfy`: the
  collection-tagged material path and recovering the collection name from
  it.

`common.dfy`, `game_enums.dfy` and `mods.dfy` hold shared helpers, the
game's byte enums and the mod data shapes.

The shared conflict list of a pair of mods is one list in an arena
(`Cache.lists`). Both records of the pair refer to it by index.

Objects whose fields the source updates in place are classes:

- `Cache`, `MetaManager`, `MetaBaseFile`, `CmpFile`;
- `ModCollection`, `Mod`, `MaterialState`, `JsonWriter`.

Exceptions the source can throw become explicit results (`ok == false`,
`None`). Examples are a null settings dereference, an unknown slot, a
duplicate dictionary key, and an unknown manipulation type.

Where the code differs from the behaviour described in its documentation
and comments, the model follows the code:

- `AddMod` returns early for an installed, disabled mod without
  incrementing the change counter.
- `SetChangedItems` stores the save counter before rebuilding the index.
- The EST `ApplyMod` records the manipulation before the slot switch can
  throw.

## Model

| member | source | states |
|---|---|---|
| CollectionCache.Needle | Penumbra/Collections/ModCollection.Cache.cs:88-92 | the needle has the file name's length; each character is lower-cased, and '/' becomes '\' exactly when the path is rooted |
| CollectionCache.NeedleOfUnrootedIgnoresCase | Penumbra/Collections/ModCollection.Cache.cs:88-95 | for an unrooted path, matching the needle ignoring case is the same as matching the file's own name ignoring case |
| CollectionCache.MatchingKeys | Penumbra/Collections/ModCollection.Cache.cs:94-96 | returns exactly the enumerated keys whose winning file matches the needle, ignoring case |
| CollectionCache.Cache.constructor | Penumbra/Collections/ModCollection.Cache.cs:23-58 | the cache starts with no redirections, owners or conflicts; the changed-items save counter is -1 and the index is empty |
| CollectionCache.Cache.Conflicts | Penumbra/Collections/ModCollection.Cache.cs:32-33 | a mod without an entry has no records; every record names an existing shared list |
| CollectionCache.Cache.ResolvePath | Penumbra/Collections/ModCollection.Cache.cs:69-83 | a file is returned iff the path is redirected, the winner's name is at most MaxGamePathLength, and a rooted winner exists on disk; the file returned is the stored winner |
| CollectionCache.Cache.ReverseResolvePath | Penumbra/Collections/ModCollection.Cache.cs:86-105 | every game path whose winner matches the needle ignoring case is returned, and nothing else except the file's own name; that name comes first exactly when the path is unrooted and parses as a game path |
| CollectionCache.Cache.RemoveEmptyConflicts | Penumbra/Collections/ModCollection.Cache.cs:350-374 | the mod keeps exactly its old records whose shared list is non-empty, and its entry is dropped when none are left; when transitive, each emptied partner is cleaned first; afterwards no record of the mod names an empty list |
| CacheSpec.KeepNonEmptyIsFilter | Penumbra/Collections/ModCollection.Cache.cs:352-365 | the kept records are exactly the records whose shared list is non-empty |
| CacheSpec.DropEmptyPartnersClears | Penumbra/Collections/ModCollection.Cache.cs:354-359 | after the transitive clean-up, the partner of an emptied record keeps no record with an empty list |
| CacheSpec.SetRecords | Penumbra/Collections/ModCollection.Cache.cs:366-373 | the mod's records become the given ones, and the mod's entry exists iff they are non-empty; every other mod is unchanged |
| CacheSpec.PriorityOf | Penumbra/Collections/ModCollection.Cache.cs:381-382 | definition, used by the other contracts: a temporary mod (index below 0) uses its own priority; an installed mod uses its collection setting; the result is none where that setting is null, which is where the source dereferences null |
| CacheSpec.Without | Penumbra/Collections/ModCollection.Cache.cs:389-390 | RemoveAll leaves no occurrence of the item, and every other item keeps its multiplicity |
| CollectionCache.Cache.RecordConflict | Penumbra/Collections/ModCollection.Cache.cs:399-415 | for a pair that already has records, the item is appended to the shared list and no record changes (HasPriority and Solved are kept); otherwise one new list holding the item is shared by a new record on each side; either way the added mod has a record for the existing mod whose list holds the item |
| CacheSpec.AddPairMirrored | Penumbra/Collections/ModCollection.Cache.cs:408-414 | the two new records share one list; HasPriority is existing < added on the added side and existing >= added on the other side; both Solved flags are "priorities differ" |
| CacheSpec.AddPairKeepsSymmetry | Penumbra/Collections/ModCollection.Cache.cs:408-414 | adding the pair keeps every record mirrored on the other mod's side |
| CacheSpec.AddPairFacts | Penumbra/Collections/ModCollection.Cache.cs:408-414 | the new pair keeps every list id in range, and the added mod's last record names the existing mod and the new list |
| CollectionCache.Cache.ExtendList | Penumbra/Collections/ModCollection.Cache.cs:404 | the shared list gains the item at its end; no record, redirection or owner changes, so both mods see the item; the item's count in the lists grows by exactly one |
| CollectionCache.Cache.NewPair | Penumbra/Collections/ModCollection.Cache.cs:409-414 | a new list holding just the item is appended, and the conflicts become AddPair over it (the two mirrored records); the added mod's last record names the existing mod and a list holding the item |
| CollectionCache.Cache.AddConflict | Penumbra/Collections/ModCollection.Cache.cs:379-418 | fails and changes nothing when either priority is missing; otherwise the result is existing < added, and afterwards the added mod has a record for the existing mod whose shared list holds the item; the redirections and owners are untouched; the item's total count in the lists grows by at most one |
| CollectionCache.Cache.AddFile | Penumbra/Collections/ModCollection.Cache.cs:327-345 | an unclaimed path goes to the offering mod with no conflict recorded; a path the mod already holds is left as it is with no conflict recorded; a path held by another mod moves iff the holder's priority is lower; on success the result is exactly OfferOne of the path; only this mod ever gains a path, and no path is dropped |
| CollectionCache.Cache.AddManipulation | Penumbra/Collections/ModCollection.Cache.cs:424-442 | the same three cases for the manipulation's key, and on success exactly OfferOne of the key; an Unknown manipulation fails with nothing changed |
| CollectionCache.Cache.AddSubMod | Penumbra/Collections/ModCollection.Cache.cs:310-321 | only this mod claims paths and keys, and none are dropped; on success the paths become exactly OfferFiles of the option's redirections and the keys exactly OfferKeys of its manipulations, in order, so every one of them is claimed |
| CollectionCache.Cache.AddMod | Penumbra/Collections/ModCollection.Cache.cs:253-307 | a disabled installed mod changes nothing; a replay that throws is reported; on success the paths and keys become exactly AddModFiles and AddModKeys (the offers of every option EmissionOf lists, in order) and every such option is claimed; only this mod claims anything; the change counter grows by one exactly when addMetaChanges is set and the mod was not skipped |
| CollectionCache.AddModFilesOutcome | Penumbra/Collections/ModCollection.Cache.cs:327-345 | after AddMod a path the mod does not offer is untouched; a path it offers is held by the mod exactly when it was unclaimed, already the mod's, or held by a mod of lower priority, and then maps to the file of the mod's earliest offer (for a new winner); otherwise it keeps its holder |
| CollectionCache.AddModKeysOutcome | Penumbra/Collections/ModCollection.Cache.cs:424-442 | the same for manipulation keys: an offered key ends with the mod exactly when it was unclaimed, already the mod's, or held by a mod of lower priority; keys not offered are untouched |
| CacheSpec.OfferAllOutcome | Penumbra/Collections/ModCollection.Cache.cs:327-345 | offers by one mod in order decide each item at its first offer: unclaimed or outranked items go to that offer, items the mod holds or that a mod of equal or higher priority holds stay; later offers change nothing; other items are untouched |
| CacheSpec.OfferAllConcat | Penumbra/Collections/ModCollection.Cache.cs:310-321 | offering one option's items after another's is offering them all in sequence |
| ModEmission.DisabledEmitsNothing | Penumbra/Collections/ModCollection.Cache.cs:255-261 | an installed mod emits nothing iff its setting is null or not enabled |
| ModEmission.TemporaryEmitsDefault | Penumbra/Collections/ModCollection.Cache.cs:255-291 | a temporary mod emits exactly its default option |
| ModEmission.DefaultComesLast | Penumbra/Collections/ModCollection.Cache.cs:291 | a complete replay ends with the default option |
| ModEmission.EmissionOf | Penumbra/Collections/ModCollection.Cache.cs:253-291 | the replay of one mod: Disabled iff the mod is installed and its setting is null or not enabled; exactly the default option for a temporary mod; a complete replay ends with the default option |
| ModEmission.GroupEmission | Penumbra/Collections/ModCollection.Cache.cs:265-285 | a group throws (none) iff it has options and either its selection word is missing or it is single-select with a word that is not a valid signed index; every sub-mod it contributes is one of its options |
| ModEmission.EmptyGroupSkipped | Penumbra/Collections/ModCollection.Cache.cs:265-268 | a group without options contributes nothing, even with no selection word for it |
| ModEmission.SingleEmitsSelected | Penumbra/Collections/ModCollection.Cache.cs:273-275 | a single-select group whose selection is a valid signed index contributes exactly the selected option |
| ModEmission.MultiEmitsSetBits | Penumbra/Collections/ModCollection.Cache.cs:276-285 | a multi-select group contributes its set-bit options, and each comes before every option of lower priority |
| ModEmission.MultiOrder | Penumbra/Collections/ModCollection.Cache.cs:278-280 | visits exactly the options whose bit is set, in stable descending option priority |
| ModEmission.SetBits | Penumbra/Collections/ModCollection.Cache.cs:279 | lists in increasing order exactly the indices below the option count whose bit is set |
| ModEmission.GroupOrder | Penumbra/Collections/ModCollection.Cache.cs:263 | a permutation of the group indices in stable descending group priority |
| ModEmission.GroupOrderVisitsEachOnce | Penumbra/Collections/ModCollection.Cache.cs:263 | every group index occurs exactly once |
| ModEmission.GroupOrderIsStableDescending | Penumbra/Collections/ModCollection.Cache.cs:263 | any permutation of the group indices in stable descending priority is GroupOrder, so the order is unique |
| ModEmission.SortDesc | Penumbra/Collections/ModCollection.Cache.cs:263 | the insertion sort returns a permutation of its input |
| ModEmission.SortDescOrdered | Penumbra/Collections/ModCollection.Cache.cs:263 | sorting increasing indices yields stable descending order (higher key first, ties in original order) |
| ModEmission.OrderedDescUnique | Penumbra/Collections/ModCollection.Cache.cs:263 | two stable descending orders of the same indices are equal |
| CollectionCache.Cache.ReleaseFiles | Penumbra/Collections/ModCollection.Cache.cs:198-209 | the redirections become ReleasedFiles: the listed paths held by the mod are removed and nothing else changes |
| CacheSpec.ReleasedFiles | Penumbra/Collections/ModCollection.Cache.cs:198-209 | a path stays iff it is not both listed and held by the mod; kept paths keep their winner; no listed path is left held by the mod |
| CollectionCache.Cache.ReleaseManipulations | Penumbra/Collections/ModCollection.Cache.cs:211-217 | fails iff an Unknown manipulation is met; on success the owners become ReleasedMeta; owners are only ever removed, never changed |
| CacheSpec.ReleasedMeta | Penumbra/Collections/ModCollection.Cache.cs:211-217 | a key stays iff it is not both listed and owned by the mod; kept keys keep their owner |
| CacheSpec.RemovePartner | Penumbra/Collections/ModCollection.Cache.cs:228 | keeps exactly the records that do not name the removed mod |
| CollectionCache.Cache.StrikePartner | Penumbra/Collections/ModCollection.Cache.cs:228-236 | the partner's records lose those that name the removed mod, and the partner's entry is dropped when none are left |
| CollectionCache.Cache.SettlePartner | Penumbra/Collections/ModCollection.Cache.cs:222-237 | a record without priority strikes the removed mod from the partner and changes nothing else; a record with priority reloads the partner, which then has its emitted options claimed |
| CollectionCache.Cache.SettlePartners | Penumbra/Collections/ModCollection.Cache.cs:220-238 | when no record has priority, the conflicts become StrikePartners over the records and nothing else changes |
| CollectionCache.Cache.RemoveMod | Penumbra/Collections/ModCollection.Cache.cs:194-249 | fails iff a manipulation of the mod is Unknown (when no record has priority); otherwise drops exactly the mod's own paths and keys, deletes the mod's entry, and strikes it from every partner; the counter grows by one iff addMetaChanges is set |
| CacheSpec.StrikePartnersPointwise | Penumbra/Collections/ModCollection.Cache.cs:220-238 | striking changes only the partners' records, and each partner loses exactly its records naming the mod |
| CacheSpec.RemoveModKeepsSymmetry | Penumbra/Collections/ModCollection.Cache.cs:219-238 | removing a mod from a symmetric graph leaves a symmetric graph in which no record names the removed mod |
| CollectionCache.Cache.ReloadMod | Penumbra/Collections/ModCollection.Cache.cs:188-192 | on success the mod's emitted options are claimed; the counter is unchanged without addMetaChanges, and otherwise grows once for the removal and once for an add that was not skipped |
| CollectionCache.Cache.FullRecalculation | Penumbra/Collections/ModCollection.Cache.cs:159-186 | every path and key afterwards is owned by a temporary or installed mod; on success the paths and keys are exactly ReplayFiles and ReplayKeys (AddMod of each temporary mod, then each installed mod, from empty maps), every one of those mods has its emitted options claimed, and the counter grows by exactly one |
| CollectionCache.Cache.IncrementCounter | Penumbra/Collections/ModCollection.Cache.cs:450-454 | the counter grows by one and nothing else changes |
| CollectionCache.Cache.OnModSettingChange | Penumbra/Collections/ModCollection.Cache.cs:107-152 | a priority change of a mod without conflicts changes nothing; a setting change of a mod that is not enabled changes nothing; the multi-collection changes recalculate and count once; enabling a mod (old value 0) adds it, so its options are claimed |
| CollectionCache.Cache.SetChangedItems | Penumbra/Collections/ModCollection.Cache.cs:458-496 | a no-op when the save counter equals the change counter; otherwise the index is rebuilt from the redirections; afterwards the save counter equals the change counter |
| CollectionCache.Cache.ChangedItems | Penumbra/Collections/ModCollection.Cache.cs:38-45 | returns the index after SetChangedItems; a rebuilt index lists exactly the item and mod pairs the redirections link |
| CacheSpec.NoteItem | Penumbra/Collections/ModCollection.Cache.cs:476-487 | a new name gets the mod and the object; a known name gains the mod once; two integer objects are summed with 32-bit wrap-around; otherwise a new mod brings its object and a known mod keeps the old one |
| CacheSpec.NoteAllDescribes | Penumbra/Collections/ModCollection.Cache.cs:474-488 | after noting a path's identified items, each item lists the mod exactly for the names identified, with the earlier mods kept |
| CacheSpec.CollectItemsSpec | Penumbra/Collections/ModCollection.Cache.cs:472-489 | an item lists a mod iff some non-IMC path won by that mod identifies it; no mod is listed twice; no listed item is without a mod |
| CacheSpec.ItemNamedIffIdentified | Penumbra/Collections/ModCollection.Cache.cs:472-489 | an item is in the index iff it is identified from some non-IMC redirection |
| CacheSpec.CollectItemsListed | Penumbra/Collections/ModCollection.Cache.cs:472-489 | the index built from an enumeration of the redirections lists exactly the (item, mod) pairs that the redirections link |
| Common.AddInt32 | Penumbra/Collections/ModCollection.Cache.cs:482-486 | the sum of two 32-bit integers, wrapped into the signed 32-bit range |
| MetaManipulations.TypeOf | Penumbra/Meta/Manipulations/MetaManipulation.cs:109-161 | the type tag is exactly the payload's category, and Unknown exactly for an unknown manipulation |
| MetaManipulations.Manipulation | Penumbra/Meta/Manipulations/MetaManipulation.cs:64-76 | the getter is null exactly for Unknown, and is never an object of no category |
| MetaManipulations.FromObject | Penumbra/Meta/Manipulations/MetaManipulation.cs:77-106 | the init setter leaves the type Unknown exactly for null or an object of no known category |
| MetaManipulations.ManipulationRoundTrip | Penumbra/Meta/Manipulations/MetaManipulation.cs:64-106 | setting the getter's object gives back the same manipulation |
| MetaManipulations.FromObjectRoundTrip | Penumbra/Meta/Manipulations/MetaManipulation.cs:64-106 | reading back a payload that was set gives the same payload |
| MetaManipulations.Equals | Penumbra/Meta/Manipulations/MetaManipulation.cs:182-199 | throws (none) iff both are Unknown; false whenever the categories differ |
| MetaManipulations.EqualsIffSameKey | Penumbra/Meta/Manipulations/MetaManipulation.cs:182-199 | within a category, equal iff the identity fields are equal (the entry is ignored) |
| MetaManipulations.EqualsSymmetric | Penumbra/Meta/Manipulations/MetaManipulation.cs:182-199 | equality is symmetric |
| MetaManipulations.EntryEquals | Penumbra/Meta/Manipulations/MetaManipulation.cs:163-180 | throws iff both are Unknown; false across categories; for RSP it compares only the entries |
| MetaManipulations.EqualsAndEntryEqualsIsIdentity | Penumbra/Meta/Manipulations/MetaManipulation.cs:163-199 | equal identity and equal entry make the manipulations identical |
| MetaManipulations.GetHashCode | Penumbra/Meta/Manipulations/MetaManipulation.cs:204-214 | throws iff Unknown; for RSP it is the RSP hash |
| MetaManipulations.HashConsistentWithEquals | Penumbra/Meta/Manipulations/MetaManipulation.cs:182-214 | equal manipulations hash equally |
| MetaManipulations.RspEquals | Penumbra/Meta/Manipulations/RspManipulation.cs:32-34 | equal iff the manipulations agree everywhere except possibly in the entry |
| MetaManipulations.RspHash | Penumbra/Meta/Manipulations/RspManipulation.cs:39-40 | definition, no contract of its own: HashCode.Combine (a parameter) of the sub-race and the attribute; RspHashConsistent states that it ignores the entry |
| MetaManipulations.RspHashConsistent | Penumbra/Meta/Manipulations/RspManipulation.cs:32-40 | equal RSP manipulations (same sub-race and attribute) hash equally, whatever their entries |
| MetaManipulations.RspCompareTo | Penumbra/Meta/Manipulations/RspManipulation.cs:42-46 | zero iff equal; negative and positive exactly as (sub-race, attribute) compares lexicographically |
| MetaManipulations.RspFileIndex | Penumbra/Meta/Manipulations/RspManipulation.cs:48-49 | definition: the constant HumanCmp, so every RSP manipulation targets human.cmp |
| MetaManipulations.RspApply | Penumbra/Meta/Manipulations/RspManipulation.cs:51-61 | throws iff the sub-race has no RSP index, writing nothing; reports no change and writes nothing when the slot already holds the entry; otherwise writes the entry; afterwards the slot reads the entry |
| MetaManipulations.EstApply | Penumbra/Meta/Manager/MetaManager.Est.cs:56 | afterwards the entry is at the manipulation's key, and no other key changes; the result is "changed" iff the value there differed |
| MetaManipulations.GmpApply | Penumbra/Meta/Manager/MetaManager.Gmp.cs:39 | the same for the GMP entry at the set id |
| MetaFiles.WriteWord | Penumbra/Meta/Files/CmpFile.cs:19-23 | writes the four bytes at the offset and leaves every other byte alone |
| MetaFiles.ReadAfterWrite | Penumbra/Meta/Files/CmpFile.cs:19-23 | reading at the written offset returns the written word; reading a disjoint word returns what was there |
| MetaFiles.MetaBaseFile.AllocateData | Penumbra/Meta/Files/MetaBaseFile.cs:25-33 | Length is the requested length, and Data is a fresh buffer of that length |
| MetaFiles.MetaBaseFile.ReleaseUnmanagedResources | Penumbra/Meta/Files/MetaBaseFile.cs:36-47 | Length is 0 and Data is null |
| MetaFiles.MetaBaseFile.ResizeResources | Penumbra/Meta/Files/MetaBaseFile.cs:50-72 | same length is a no-op; growing keeps the old bytes and zero-fills the tail; shrinking keeps the first newLength bytes; afterwards Length == newLength, in a fresh buffer when it changed |
| MetaFiles.MetaBaseFile.Dispose | Penumbra/Meta/Files/MetaBaseFile.cs:75-79 | releases the buffer: Length 0, Data null |
| MetaFiles.ToRspIndex | Penumbra/Meta/Files/CmpFile.cs:49-70 | defined iff the sub-race is Unknown or one of the sixteen named ones; Unknown maps to 0 like Midlander; a named race r maps to 10*((r-1)/2) + (r-1)%2, always below 72 |
| MetaFiles.ToRspIndexInjective | Penumbra/Meta/Files/CmpFile.cs:49-70 | distinct named sub-races get distinct indices |
| MetaFiles.SlotsDisjoint | Penumbra/Meta/Files/CmpFile.cs:17-23 | the 4-byte slots of distinct (index, attribute) pairs do not overlap |
| MetaFiles.SlotInTable | Penumbra/Meta/Files/CmpFile.cs:17-23 | every slot lies inside the racial scaling table |
| MetaFiles.GetDefault | Penumbra/Meta/Files/CmpFile.cs:43-47 | throws (none) iff ToRspIndex throws; otherwise reads the slot's offset in the default snapshot |
| MetaFiles.CmpFile.Get | Penumbra/Meta/Files/CmpFile.cs:19-20 | throws iff ToRspIndex throws; otherwise reads the slot at 0x2A800 + index*56 + attribute*4 |
| MetaFiles.CmpFile.Set | Penumbra/Meta/Files/CmpFile.cs:19-23 | throws and writes nothing iff ToRspIndex throws; otherwise writes exactly that slot, and Get then returns the value |
| MetaFiles.CmpFile.Reset | Penumbra/Meta/Files/CmpFile.cs:25-26 | the data becomes the default snapshot byte for byte |
| MetaFiles.CmpFile.ResetEntries | Penumbra/Meta/Files/CmpFile.cs:28-34 | succeeds iff every listed sub-race has an index; then every listed slot reads its default; a byte outside the listed slots never changes |
| MetaFiles.CmpFile.AllDefaultsRead | Penumbra/Meta/Files/CmpFile.cs:28-47 | when every listed slot holds its default bytes, Get of each listed entry equals GetDefault |
| MetaFiles.CmpFile.constructor | Penumbra/Meta/Files/CmpFile.cs:36-41 | a fresh file equals the default snapshot byte for byte |
| MetaFiles.NewEstFile | Penumbra/Meta/Manager/MetaManager.Est.cs:50-53 | a new EST file of a slot reads the default snapshot everywhere |
| MetaFiles.ResetEstFile | Penumbra/Meta/Manager/MetaManager.Est.cs:38-41 | a reset EST file reads the default snapshot everywhere |
| MetaFiles.NewGmpFile | Penumbra/Meta/Manager/MetaManager.Gmp.cs:38 | a new GMP file reads the default snapshot everywhere |
| MetaFiles.ResetGmpFile | Penumbra/Meta/Manager/MetaManager.Gmp.cs:31 | each listed set id reads its default; every other set id keeps its value |
| MetaStore.AddOrReplace | Penumbra/Meta/Manager/MetaManager.Est.cs:47 | the element is in the result, which holds nothing new besides it; the list grows by one iff no equal element was there |
| MetaStore.LookupAfterAddOrReplace | Penumbra/Meta/Manager/MetaManager.Est.cs:47 | afterwards the element's key finds the element, and every other key finds what it found before |
| MetaStore.AddOrReplaceDistinct | Penumbra/Meta/Manager/MetaManager.Est.cs:47 | keys stay distinct, so there is at most one record per key |
| MetaStore.Remove | Penumbra/Meta/Manager/MetaManager.Est.cs:61 | reports true iff an equal element was present; then the list shrinks by one; otherwise it is unchanged |
| MetaStore.LookupAfterRemove | Penumbra/Meta/Manager/MetaManager.Est.cs:61 | on a list with distinct keys, nothing is left under the removed key, every other key finds what it found before, and keys stay distinct |
| MetaStore.ApplyEstKeepsMatch | Penumbra/Meta/Manager/MetaManager.Est.cs:45-57 | recording a manipulation and applying it to its slot's file (created if missing) keeps every file equal to the snapshot overlaid with the records |
| MetaStore.RevertEstKeepsMatch | Penumbra/Meta/Manager/MetaManager.Est.cs:59-77 | dropping a record and writing the default back keeps every file matching; the slot's file exists |
| MetaStore.ResetEstMatches | Penumbra/Meta/Manager/MetaManager.Est.cs:36-43 | a reset file, or a missing one, matches an empty record list |
| MetaStore.ApplyGmpKeepsMatch | Penumbra/Meta/Manager/MetaManager.Gmp.cs:35-40 | recording and applying keeps the GMP file matching the records |
| MetaStore.RevertGmpKeepsMatch | Penumbra/Meta/Manager/MetaManager.Gmp.cs:42-52 | a recorded manipulation implies a file exists; dropping the record and writing the default keeps it matching |
| MetaStore.ResetGmpRestoresSnapshot | Penumbra/Meta/Manager/MetaManager.Gmp.cs:24-33 | resetting the recorded set ids of a matching file restores the snapshot at every set id |
| MetaStore.MetaManager.constructor | Penumbra/Meta/Manager/MetaManager.Est.cs:13-18 | no files and no records, which satisfies the invariant that every file is the snapshot overlaid with the records |
| MetaStore.MetaManager.ResetEst | Penumbra/Meta/Manager/MetaManager.Est.cs:36-43 | resets only files that exist and clears the records; the invariant holds; GMP is untouched |
| MetaStore.MetaManager.ApplyEst | Penumbra/Meta/Manager/MetaManager.Est.cs:45-57 | the record list becomes AddOrReplace; throws iff the slot is unknown (after recording); otherwise the slot's file exists and holds the entry, and "changed" is whether the value before differed; other slots and GMP are untouched |
| MetaStore.MetaManager.RevertEst | Penumbra/Meta/Manager/MetaManager.Est.cs:59-77 | an unrecorded manipulation changes nothing and reports no change; otherwise the record is removed, the slot's file holds the default again, and "changed" is whether the value differed from the default; throws only for an unknown slot |
| MetaStore.MetaManager.DisposeEst | Penumbra/Meta/Manager/MetaManager.Est.cs:79-90 | all four files are gone and the records are empty |
| MetaStore.MetaManager.ResetGmp | Penumbra/Meta/Manager/MetaManager.Gmp.cs:24-33 | a no-op without a file; otherwise resets exactly the recorded set ids, after which the file is the snapshot, and clears the records |
| MetaStore.MetaManager.ApplyGmp | Penumbra/Meta/Manager/MetaManager.Gmp.cs:35-40 | AddOrReplace on the records; the file exists afterwards and holds the entry; "changed" is whether the value differed |
| MetaStore.MetaManager.RevertGmp | Penumbra/Meta/Manager/MetaManager.Gmp.cs:42-52 | an unrecorded manipulation changes nothing; otherwise the record is removed and the set id holds its default again |
| MetaStore.MetaManager.DisposeGmp | Penumbra/Meta/Manager/MetaManager.Gmp.cs:54-59 | no file and no records |
| ModCollections.IsValidName | Penumbra/Collections/ModCollection.cs:103-104 | a name is valid iff it is non-empty, has no '\|' and no character that is invalid ASCII or invalid in a path |
| ModCollections.ValidNameHasNoBar | Penumbra/Collections/ModCollection.cs:103-104 | a valid name is non-empty and contains no '\|' |
| ModCollections.TemporaryNameValid | Penumbra/Collections/ModCollection.cs:87-104 | tag_characterName is a valid name iff '_' and every character of both parts are allowed |
| ModCollections.Adopt | Penumbra/Collections/ModCollection.cs:118-130 | a slot is filled iff the directory has saved settings, and then it holds their conversion; the directory leaves the unused settings; "fixed" only when saved settings existed |
| ModCollections.AdoptAllAppends | Penumbra/Collections/ModCollection.cs:167-174 | one slot is appended per mod and the existing slots are kept |
| ModCollections.AdoptAllClaims | Penumbra/Collections/ModCollection.cs:167-174 | exactly the directories of the listed mods leave the unused settings |
| ModCollections.AdoptAllSlot | Penumbra/Collections/ModCollection.cs:167-174 | the slot of the i-th mod holds its converted saved settings, or null when it had none |
| ModCollections.AdoptAllFixed | Penumbra/Collections/ModCollection.cs:167-174 | a save is requested iff some conversion fixed invalid settings |
| ModCollections.AdoptAllNothingSaved | Penumbra/Collections/ModCollection.cs:83-84 | with no saved settings every appended slot is null |
| ModCollections.StashKeys | Penumbra/Collections/ModCollection.cs:155-163 | the unused settings gain exactly the directories of mods with a non-null slot |
| ModCollections.StashValue | Penumbra/Collections/ModCollection.cs:155-163 | each stashed directory holds its slot's saved form |
| ModCollections.StashKeeps | Penumbra/Collections/ModCollection.cs:155-163 | unused settings of mods not in the list are kept |
| ModCollections.RemoveThenAdd | Penumbra/Collections/ModCollection.cs:118-142 | removing a mod with settings and adding it back restores its settings (through the saved form) and the unused settings |
| ModCollections.ModCollection.FromFile | Penumbra/Collections/ModCollection.cs:68-80 | index -1; the slots and unused settings are what applying the saved settings to the installed mods yields |
| ModCollections.ModCollection.Duplicate | Penumbra/Collections/ModCollection.cs:56-65 | the copy has the new name, the same version, slots and unused settings, and index -1 |
| ModCollections.ModCollection.CreateNewEmpty | Penumbra/Collections/ModCollection.cs:83-84 | current version, index -1, a null slot for every installed mod, no unused settings |
| ModCollections.ModCollection.CreateEmpty | Penumbra/Collections/ModCollection.cs:146-152 | the collection "None" at index 0 with no slots and no unused settings |
| ModCollections.ModCollection.CreateNewTemporary | Penumbra/Collections/ModCollection.cs:87-95 | named tag_characterName; the index is the bitwise complement of the temporary-collection count, so it is negative; the settings are Empty's |
| Common.Complement | Penumbra/Collections/ModCollection.cs:92 | the bitwise complement of a non-negative number is negative, and of a negative number non-negative |
| ModCollections.IndexTag | Penumbra/Collections/ModCollection.cs:29 | the tag starts with " (" and ends with ")", with only digits and '-' between |
| ModCollections.ModCollection.AnonymizedName | Penumbra/Collections/ModCollection.cs:28-29 | Empty's name for Empty; otherwise the first two characters and "..." when the name is longer than two, else the whole name, followed by the index tag |
| ModCollections.ModCollection.CleanUnavailableSettings | Penumbra/Collections/ModCollection.cs:107-115 | the unused settings become empty; a save happens iff they were non-empty |
| ModCollections.ModCollection.AddMod | Penumbra/Collections/ModCollection.cs:118-130 | appends exactly one slot, as Adopt decides, and updates the unused settings accordingly |
| ModCollections.ModCollection.RemoveMod | Penumbra/Collections/ModCollection.cs:133-142 | deletes slot idx and shifts later slots down; a non-null setting moves into the unused settings under the directory; fails, changing nothing, for an index out of range or a duplicate directory key |
| ModCollections.ModCollection.PrepareModDiscovery | Penumbra/Collections/ModCollection.cs:155-163 | every non-null slot moves into the unused settings, and the slots become empty |
| ModCollections.ModCollection.ApplyModSettings | Penumbra/Collections/ModCollection.cs:167-174 | every installed mod gets its slot, in order, as AdoptAll decides; a save is requested iff a conversion fixed something |
| SubModWriter.WriteSubMod | Penumbra/Mods/Subclasses/ISubMod.cs:20-55 | appends exactly the option's token sequence |
| SubModWriter.WriteHeader | Penumbra/Mods/Subclasses/ISubMod.cs:22-29 | StartObject, Name, the name, then Priority and its value iff a priority is given |
| SubModWriter.WriteFilesObject | Penumbra/Mods/Subclasses/ISubMod.cs:31-42 | the Files property holding one entry per file that converts to a relative path |
| SubModWriter.WriteFiles | Penumbra/Mods/Subclasses/ISubMod.cs:33-40 | appends one key and value per convertible file, in order |
| SubModWriter.WriteSwapsObject | Penumbra/Mods/Subclasses/ISubMod.cs:43-51 | the FileSwaps property holding every swap |
| SubModWriter.WriteSwaps | Penumbra/Mods/Subclasses/ISubMod.cs:45-49 | appends one key and value per swap, in order |
| SubModWriter.SwapPairs | Penumbra/Mods/Subclasses/ISubMod.cs:45-49 | definition, used by the writer's contracts: one pair per swap: the game path's string and the file's full name |
| SubModWriter.WriteSwapsAndManipulations | Penumbra/Mods/Subclasses/ISubMod.cs:43-54 | the FileSwaps object, then the Manipulations property and its value, then the closing EndObject |
| SubModWriter.WriteBody | Penumbra/Mods/Subclasses/ISubMod.cs:31-54 | the Files object followed by the rest of the body |
| SubModWriter.SubModIsOneObject | Penumbra/Mods/Subclasses/ISubMod.cs:22-54 | the output is one balanced object: it opens with StartObject, and its depth first returns to zero at the final EndObject |
| SubModWriter.SubModRoundTrip | Penumbra/Mods/Subclasses/ISubMod.cs:20-55 | reading the output back yields the name, the priority, the converted files, the swaps and the manipulations, in the order written |
| SubModWriter.ReadBodyTokens | Penumbra/Mods/Subclasses/ISubMod.cs:31-54 | the body reads back as its files, swaps and manipulations |
| SubModWriter.ReadEntryTokens | Penumbra/Mods/Subclasses/ISubMod.cs:33-49 | the entries of an object read back as the written pairs, and reading stops at its EndObject |
| SubModWriter.ConvertedFilesMembers | Penumbra/Mods/Subclasses/ISubMod.cs:33-40 | a (game path, relative path) pair is written iff some file with that game path converts to that relative path |
| SubModWriter.ConvertedFilesBound | Penumbra/Mods/Subclasses/ISubMod.cs:33-40 | at most one entry per file, and exactly one per file when every file converts |
| ModMigration.LookupTryAdd | Penumbra/Mods/Mod.Meta.Migration.cs:119 | TryAdd keeps an existing mapping and adds a missing one |
| ModMigration.TryAddAllLookup | Penumbra/Mods/Mod.Meta.Migration.cs:117-120 | after adding many pairs, a path keeps its old mapping, or else maps to its first offered file |
| ModMigration.TryAddAllUnique | Penumbra/Mods/Mod.Meta.Migration.cs:117-120 | the dictionary keeps one entry per game path |
| ModMigration.LookupFilePairs | Penumbra/Mods/Mod.Meta.Migration.cs:116-120 | the pairs of one file map exactly its game paths to it |
| ModMigration.LookupOptionPairs | Penumbra/Mods/Mod.Meta.Migration.cs:114-120 | an option's pairs map each game path to the first file that serves it |
| ModMigration.OptionFilesLookup | Penumbra/Mods/Mod.Meta.Migration.cs:114-126 | adding an option's files keeps existing mappings, maps new paths to their first file, and keeps keys unique |
| ModMigration.IsMetaFile | Penumbra/Mods/Mod.Meta.Migration.cs:122 | a file is a meta file iff its name ends with ".meta" or ".rgsp" |
| ModMigration.AddGamePaths | Penumbra/Mods/Mod.Meta.Migration.cs:117-120 | the loop is TryAdd of every game path of the file, in order |
| ModMigration.AddFilesToSubMod | Penumbra/Mods/Mod.Meta.Migration.cs:112-127 | only the files change; first mapping wins; keys stay unique; the option's .meta and .rgsp files are added to the seen set |
| ModMigration.OptionSubMod | Penumbra/Mods/Mod.Meta.Migration.cs:129-132 | the sub-mod before meta incorporation: named after the option, no swaps or manipulations, each game path mapped to the first file that lists it, one entry per game path |
| ModMigration.SubModFromOption | Penumbra/Mods/Mod.Meta.Migration.cs:129-135 | the result is the option's sub-mod (OptionSubMod) after IncorporateMetaChanges; the option's meta files are added to the seen set |
| ModMigration.GroupOptions | Penumbra/Mods/Mod.Meta.Migration.cs:74-83 | a converted group has one option per v0 option, in order: the k-th is that option's sub-mod after IncorporateMetaChanges, with priority k in a multi-select group and 0 in a single-select one |
| ModMigration.NewGroups | Penumbra/Mods/Mod.Meta.Migration.cs:30-35 | the groups created from a list number CreatedGroups of it and get priorities 1, 2, 3... in order |
| ModMigration.OptionsMetaFiles | Penumbra/Mods/Mod.Meta.Migration.cs:122-125 | the files options add to the seen set are all .meta or .rgsp files |
| ModMigration.GroupsMetaFiles | Penumbra/Mods/Mod.Meta.Migration.cs:31-35 | the seen set after the group loop holds only .meta or .rgsp files |
| ModMigration.UnusedPairsMembers | Penumbra/Mods/Mod.Meta.Migration.cs:37-40 | the unused-file loop offers a pair exactly for each unused file that was not seen and maps to a game path, paired with that path |
| ModMigration.UnusedPairsAdded | Penumbra/Mods/Mod.Meta.Migration.cs:37-44 | offering the unused pairs keeps every existing mapping and maps the game path of every unused, unseen file that has one |
| ModMigration.ConvertOptions | Penumbra/Mods/Mod.Meta.Migration.cs:74-83 | the options built are exactly GroupOptions of the group (one per v0 option, in order, each the option's sub-mod after IncorporateMetaChanges with priority k for multi and 0 for single); the seen set grows by exactly the options' meta files |
| ModMigration.Mod.ConvertGroup | Penumbra/Mods/Mod.Meta.Migration.cs:64-110 | an empty group changes nothing; a one-option single group leaves the groups alone and TryAdds that option's pairs to the default option's files; any other group leaves the default option alone and appends exactly ModGroup(name, kind, current priority, GroupOptions); the priority advances iff a group was created; the seen set grows by exactly the options' meta files |
| ModMigration.Mod.ConvertGroups | Penumbra/Mods/Mod.Meta.Migration.cs:30-35 | the groups become the old groups followed by exactly NewGroups of the list (priorities 1, 2, 3... in order); the default option's files become TryAddAll of the folded groups' pairs (FoldedPairs), so existing mappings are kept; the seen set is exactly the meta files of all options |
| ModMigration.Mod.AddUnusedFiles | Penumbra/Mods/Mod.Meta.Migration.cs:37-44 | the default option's files become exactly TryAddAll of the unused pairs (UnusedPairs) and nothing else changes; hence every unused, unseen file with a game path has that path mapped, and existing mappings are kept |
| ModMigration.Mod.MigrateV0ToV1 | Penumbra/Mods/Mod.Meta.Migration.cs:20-62 | migrates iff the file version is at most 0, and changes nothing otherwise; the groups become the old ones followed by NewGroups of the parsed groups; the default option ends as IncorporateMetaChanges of a default option that keeps its name and manipulations, has exactly the parsed swaps, and whose files are the old files after TryAddAll of the folded groups' pairs and then of the unused pairs of the files not seen as meta files; existing mappings are kept and every unused non-meta file with a game path is mapped |
| Common.LastIndexOf | Penumbra/Interop/Resolver/PathResolver.Material.cs:91 | -1 or an index of the character, with no occurrence after it |
| MaterialResolver.MaterialTag | Penumbra/Interop/Resolver/PathResolver.Material.cs:50 | the tagged path starts with '\|' followed by the collection name, and ends with '\|' and the requested path |
| MaterialResolver.HandleCollection | Penumbra/Interop/Resolver/PathResolver.Material.cs:45-57 | for a non-default material the path starts with '\|' and ends with "\|" + path; in every other case the resolved path passes through; the draw object and collection are passed through |
| MaterialResolver.CollectionNameOf | Penumbra/Interop/Resolver/PathResolver.Material.cs:91-92 | the whole string when it has no '_'; otherwise the proper prefix before the last '_' |
| MaterialResolver.CollectionNameRoundTrip | Penumbra/Interop/Resolver/PathResolver.Material.cs:50-92 | recovering the name from name + "_" + a decimal counter gives back the name, even when the name contains '_' |
| MaterialResolver.LoadMtrlHelper | Penumbra/Interop/Resolver/PathResolver.Material.cs:142-152 | no collection for a null handle or an unknown path; otherwise the collection stored for the material's path |
| MaterialResolver.MaterialState.constructor | Penumbra/Interop/Resolver/PathResolver.Material.cs:25-29 | no material collection is set, and the path state is the one given |
| MaterialResolver.MaterialState.HandleSubFiles | Penumbra/Interop/Resolver/PathResolver.Material.cs:32-42 | true iff a material collection is set and the type is Tex or Shpk, returning that collection; otherwise returns (0, null) |
| MaterialResolver.MaterialState.LoadMtrlFiles | Penumbra/Interop/Resolver/PathResolver.Material.cs:122-140 | the original load runs with the material's collection set, returns its result, and clears the collection afterwards |
| MaterialResolver.MaterialState.MtrlLoadHandler | Penumbra/Interop/Resolver/PathResolver.Material.cs:82-115 | not handled, with result 0 and nothing changed, for a non-material; for a material, sets the collection named in the split (temporary collections first) and consumes the path's entry |

## Left out

- CacheSpec.ConflictItem records a meta manipulation by its key only; the source's shared conflict list holds the whole manipulation, entry included (Penumbra/Collections/ModCollection.Cache.cs:404, 410). Removal compares by key, so nothing else in the cache depends on the entry.
- `CollectionCache.Cache.RemoveMod`, `CollectionCache.Cache.SettlePartner` and `CollectionCache.Cache.SettlePartners` have weaker contracts where a record of the removed mod has priority. There the partner is reloaded, and the contracts state only the invariant, the counter, and that the partner's emitted options are claimed, not the exact resulting maps. The reload re-runs the whole conflict machinery on a state the contract does not describe.
- `CollectionCache.Cache.AddConflict` states the records of the contested pair and the item's presence in their shared list. It does not state the final contents of the existing mod's other lists after re-ranking. Re-ranking is proved to terminate and to keep every list id valid.
- `CollectionCache.Cache.Valid` holds only "every record names an existing list". Symmetry of the conflict graph and "no empty record" are proved for the pure steps (`CacheSpec.AddPairKeepsSymmetry`, `CacheSpec.RemoveModKeepsSymmetry`, `CacheSpec.DropEmptyPartnersClears`) but are not carried as a class invariant, because re-ranking empties lists in the middle of an operation.
- `CollectionCache.Cache.ReloadMod` states claims and the counter, not the exact maps after the reload.
- `CollectionCache.Cache.OnModSettingChange` states the no-op cases, the counter for the multi-collection changes, and coverage after enabling a mod. For the other reload paths it states only the invariant.
- `CollectionCache.Cache.FullRecalculation` states nothing beyond ownership when a replay fails part way.
- `RemoveMod`, `ReloadMod`, `SettlePartner`, `SettlePartners` and `OnModSettingChange` take a `fuel` bound on the RemoveMod/ReloadMod recursion, which has no measure in general states. When the fuel runs out the call reports failure. The source has no such bound.
- The cache records the owning mod of each manipulation key. Applying the manipulation to the meta manager from the cache is a sink, as are `AddMetaFiles`/`SetImcFiles`, `ResidentResources.Reload`, `SetFiles` and `CharacterUtility.Ready`/`LoadingFinished`.
- The event subscriptions in the cache constructor and `Dispose`, and `OnInheritanceChange`, are not modelled.
- Collection inheritance, `this[idx]`, is not modelled; the effective settings are passed in as `coll`. The same holds for `Penumbra.ModManager` and `Penumbra.TempMods`, whose mod lists are passed in.
- `Identify`, `Utf8GamePath.FromString`, `FullPath.Exists`, `ToRelPath`, `ToGamePath`, `FindUnusedFiles`, the `FullPath(basePath, relPath)` join and the `SavedSettings` conversions are function parameters. `Identify` is total, so the catch branch of `SetChangedItems` is not modelled.
- `CollectionCache.Cache.ChangedItems` keeps the index as a map keyed by the item name. The source's SortedList with the default string comparer enumerates in sorted order and may treat culturally equal names as one key; neither is modelled.
- Dictionary and HashSet enumeration orders are given as sequences: redirections, swaps, files, groups and manipulations.
- `Common.ToLower` folds ASCII letters only; ordinal case-insensitive comparison of other characters is not modelled.
- `IMod` identity is datatype equality, not reference identity.
- `ModCollections.IsValidName` takes the character classes `IsInvalidAscii` and `IsInvalidInPath` as parameters.
- Collection version migration (`Migration.Migrate(this)`), the inheritance list, `Save`/`SaveOnChange` and `CreateCache` are not modelled.
- `IncorporateMetaChanges` reads the option's .meta and .rgsp files from disk and turns them into manipulations. It is the parameter `incorporate` of `SubModFromOption`, `ConvertGroup`, `ConvertGroups` and `MigrateV0ToV1`, and its effect is not characterised.
- The migration's `SaveModGroup`, `SaveDefaultMod` and `PluginLog` calls are sinks. The JSON parsing of the v0 file is replaced by its parsed parts, passed in as options.
- `IsMetaFile` tests the end of the full name for ".meta" or ".rgsp"; the case sensitivity of `FullPath.Extension` is not modelled.
- The manipulation set in `WriteSubMod` is written by the general serializer. It is one opaque token here.
- `MetaManipulation.CompareTo` is a memcmp over the struct's overlapping layout and depends on representation, so it is left out; so are `ToString` and the explicit field overlay.
- The EQP, EQDP and IMC manipulations appear only through their identity fields and entries. Their files and `Apply` are not modelled.
- EstFile.cs, ExpandedGmpFile.cs, EstManipulation.cs and GmpManipulation.cs are not part of this model. EST and GMP files are value tables overlaid on a default snapshot, and `Apply` is characterised by its contract, not by its byte layout.
- `MetaFiles.GetDefault`, `MetaFiles.CmpFile.Get`, `MetaFiles.CmpFile.Set`, `MetaFiles.CmpFile.ResetEntries` and `MetaManipulations.RspApply` require an attribute in 0..13. The source computes the offset without a check, so a larger attribute addresses a slot of the neighbouring sub-race or runs past the table; the model does not follow it there.
- RSP entries and CmpFile slots are 4-byte words. Float equality is byte equality, which differs from IEEE equality on NaN and on +0/-0.
- Unmanaged memory (`AllocateFileMemory`, `GameFree`, GC memory pressure, the finalizer) is an `array<bv8>` whose length is `Length`.
- `SetEstFiles`, `ResetEstFiles`, `SetGmpFiles` and `ResetGmpFiles` install files into the game's live tables. They are sinks.
- The LoadMtrl hooks, `DefaultLoadResource`, the resource loader's splitting of `|…|` paths and the raw pointer reads are parameters (`original`, `loaded`, `split`, `mtrlPath`). DEBUG logging is not modelled.
