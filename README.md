# Chromium components: a verified Dafny model

This project models nine small components of a Chromium source snapshot and
proves properties of each model. Each component has its own module:

- **SimpleIndexFile** models the simple disk cache's index file codec. It covers:
  - the index metadata (magic number, version, entry count, cache size) and its check;
  - the serialised index (pickle header with payload length and CRC, metadata, then one (hash, entry metadata) record per entry) and its reading back;
  - the restore pass that rebuilds the index from the cache's entry files;
  - the staleness rule that chooses between loading and restoring;
  - the load result object that every path resets and fills.
- **PnaclTranslationCache** models the PNaCl translation cache. It covers:
  - the per-entry state machine driven by `DispatchNext` (open, create, transfer in chunks, close or doom, finish with at most one callback);
  - the cache object's open-entry set, backend initialisation and `Size`;
  - the cache key built by `GetKey`.
- **DomStorageHost** models the DOM storage host. This is the table from renderer connection ids to (namespace, origin) areas, with the item operations routed through it. It also records the notifications it sends and the calls it makes on namespaces.
- **ResettableSettingsSnapshot** models the profile-reset settings snapshot. It covers:
  - startup URLs kept sorted;
  - the sorted set difference of two snapshots' URL lists;
  - the five-bit mask of differing fields;
  - the report that holds exactly the masked fields.
- **PrerenderFieldTrial** models the prerender configuration. It covers:
  - the `--prerender` switch parsed into an option;
  - the option, or the field-trial group, mapped to the manager's prefetch flag and mode;
  - the omnibox switch override;
  - the local-predictor parameter clamps.
- **ShillServiceClientStub** models the in-memory Shill service stub. This is a dictionary from service path to a property dictionary. Getters, setters, clears and service add/remove keep their failure and "nothing else changes" rules.
- **InputMethodWin** models the Windows views input method. It covers:
  - the document-feed and reconvert-string requests, including the ±20-character window, the buffer-size handshake and the fields written into `RECONVERTSTRING`;
  - the character-position query;
  - the candidate-popup flag;
  - the Ctrl+Shift text-direction state machine;
  - IME enabling by input type.
- **GtkUtil** models two GTK helpers. One picks a window disposition from a click's modifier flags. The other finds a widget's screen position and bounds by walking up its parent chain.
- **FullStreamUiPolicy** models the activity log's full-stream policy. It covers:
  - the queue of actions waiting to be flushed, cleared only by a committed flush;
  - the rows a flush writes;
  - the per-day time window of a read;
  - the read's selection;
  - the mapping of parameter keys.

Collaborators the components call but do not define are parameters of the model. These are:

- the disk cache backend's completion codes;
- the area's accept/refuse decision;
- the CRC function;
- the hash-key parser;
- URL filtering;
- time validity;
- the JSON reader;
- the SQL statement outcomes;
- the client's text and character bounds.

The model proves its properties for every value of those parameters. `wrappers.dfy` holds the shared `Option` type.

## Model

| member | source | states |
|---|---|---|
| SimpleIndexFile.MetadataRoundTrip | net/disk_cache/simple/simple_index_file.cc:104-118 | Deserialising serialised metadata, followed by any bytes, gives back the same magic, version, entry count and cache size. |
| SimpleIndexFile.SerializeMetadata | net/disk_cache/simple/simple_index_file.cc:104-110 | The metadata is written as exactly 28 bytes: u64 magic, u32 version, u64 entry count, u64 cache size. `MetadataRoundTrip` reads it back. |
| SimpleIndexFile.DeserializeMetadata | net/disk_cache/simple/simple_index_file.cc:112-118 | Metadata can be read exactly when the payload holds at least the 28 metadata bytes. |
| SimpleIndexFile.CheckIndexMetadata | net/disk_cache/simple/simple_index_file.cc:120-124 | Accepts an entry count of at most 100000000 with the current magic number and version. `NewMetadataChecks` and `LoadedMeansChecked` state what it admits. |
| SimpleIndexFile.NewMetadataChecks | net/disk_cache/simple/simple_index_file.cc:120-124 | Fresh metadata passes the check exactly when its entry count is at most 100000000. |
| SimpleIndexFile.DeserializeIndex | net/disk_cache/simple/simple_index_file.cc:289-338 | Reading never asks for a flush. Every failure (bad header or CRC, bad or failed metadata, truncated records) yields the reset result: not loaded, no entries. |
| SimpleIndexFile.LoadedMeansChecked | net/disk_cache/simple/simple_index_file.cc:293-337 | A successful load had a readable header, a matching CRC, metadata that passes the check, enough bytes for every record, and exactly as many entries as the metadata declares. |
| SimpleIndexFile.ReadEntriesCount | net/disk_cache/simple/simple_index_file.cc:325-337 | When the record loop succeeds, the entry set holds exactly the declared count and keeps the entries read before. |
| SimpleIndexFile.ReadEntriesNeedsRecords | net/disk_cache/simple/simple_index_file.cc:325-333 | The record loop succeeds only if the data holds a full 24-byte record for every entry still to be read. |
| SimpleIndexFile.InsertInEntrySet | net/disk_cache/simple/simple_index_file.cc:325-335 | Inserting a hash that is already present keeps the stored entry. `ReadEntriesCount` relies on this: the loop stops at exactly the declared number of distinct hashes. |
| SimpleIndexFile.IndexRoundTrip | net/disk_cache/simple/simple_index_file.cc:271-338 | Serialising an entry set of at most 100000000 entries, in any iteration order, with fresh metadata and a CRC over the payload, and deserialising it gives back a loaded result with exactly that entry set. |
| SimpleIndexFile.FrameRoundTrip | net/disk_cache/simple/simple_index_file.cc:282-311 | The pickle header written before a payload reads back as that payload and that payload's CRC. |
| SimpleIndexFile.DecodeEncodeLE | net/disk_cache/simple/simple_index_file.cc:104-118 | Little-endian decoding inverts encoding for every value that fits in the width. |
| SimpleIndexFile.SimpleIndexLoadResult.Reset | net/disk_cache/simple/simple_index_file.cc:80-84 | After a reset the result is not loaded, requires no flush and has no entries. |
| SimpleIndexFile.Serialize | net/disk_cache/simple/simple_index_file.cc:271-286 | The output is the framed payload of the metadata followed by one record per entry, in some order that lists every entry exactly once. |
| SimpleIndexFile.Deserialize | net/disk_cache/simple/simple_index_file.cc:289-338 | The in-place loop leaves the load result equal to the pure reading of the same bytes, including every failure path. |
| SimpleIndexFile.RestoredKeys | net/disk_cache/simple/simple_index_file.cc:366-404 | A hash is in the restored index exactly when some enumerated file name parses to that hash. |
| SimpleIndexFile.RestoredSize | net/disk_cache/simple/simple_index_file.cc:387-404 | A restored entry's size is the sum, modulo 2^64, of the sizes of all files with that hash. |
| SimpleIndexFile.SyncRestoreFromDisk | net/disk_cache/simple/simple_index_file.cc:341-405 | The merge loop leaves a result that is loaded, requires a flush and holds the restored entry set. |
| SimpleIndexFile.SyncLoadFromDisk | net/disk_cache/simple/simple_index_file.cc:253-268 | An unreadable file leaves the reset result. Otherwise the result is the deserialisation of the file's contents. |
| SimpleIndexFile.SyncLoadIndexEntries | net/disk_cache/simple/simple_index_file.cc:175-250 | A fresh index that loads is used as read. Otherwise the entries are restored from the files. The exception is a stale index whose result was already loaded, which keeps that result. On a result not yet loaded, the outcome is exactly `LoadOutcome`. |
| SimpleIndexFile.IsIndexFileStale | net/disk_cache/simple/simple_index_file.cc:408-414 | An index whose modification time cannot be read is stale, and so is one older than the cache directory. `StaleIndexIsRebuilt` and `SyncLoadIndexEntries` state what staleness decides. |
| SimpleIndexFile.StaleIndexIsRebuilt | net/disk_cache/simple/simple_index_file.cc:175-250 | A stale index (mtime unreadable or older than the cache) is never read: the outcome is the restored, flush-requiring entry set. |
| SimpleIndexFile.LoadOutcome | net/disk_cache/simple/simple_index_file.cc:175-250 | The outcome of loading on a result not yet loaded always has did_load set. `SyncLoadIndexEntries` is proved to reach it. |
| PnaclTranslationCache.Run | chrome/browser/nacl_host/pnacl_translation_cache.cc:224-298 | Any sequence of completions keeps the entry well-formed. A write entry always holds its nexe, a transferring entry has a buffer, and a read entry never enters CREATE_ENTRY. |
| PnaclTranslationCache.Next | chrome/browser/nacl_host/pnacl_translation_cache.cc:224-298 | One completion in each step: open, create, transfer, close. `NextPreservesValid`, `NextKeepsCallbackOnce`, `NextKeepsRequestMatchesBuffer`, `TransferErrorDooms`, `ReadMiss` and `WriteCreateFails` state its properties. |
| PnaclTranslationCache.FinishState | chrome/browser/nacl_host/pnacl_translation_cache.cc:209-222 | The callback runs only if still set and is then reset, and OpComplete is counted. `NextKeepsCallbackOnce` and `RunReportsAtMostOnce` show it reports at most once. |
| PnaclTranslationCache.CloseState | chrome/browser/nacl_host/pnacl_translation_cache.cc:200-207 | A negative code dooms the entry, then the close is posted and the entry finishes. `TransferErrorDooms` and `TransferCompletes` state the outcomes. |
| PnaclTranslationCache.NextPreservesValid | chrome/browser/nacl_host/pnacl_translation_cache.cc:224-298 | A single dispatch step preserves well-formedness. |
| PnaclTranslationCache.NextKeepsCallbackOnce | chrome/browser/nacl_host/pnacl_translation_cache.cc:209-222 | A step never removes reported results. A pending callback means nothing has been reported yet. |
| PnaclTranslationCache.RunReportsAtMostOnce | chrome/browser/nacl_host/pnacl_translation_cache.cc:209-298 | However many completions arrive, the read or write callback runs at most once. |
| PnaclTranslationCache.NextKeepsRequestMatchesBuffer | chrome/browser/nacl_host/pnacl_translation_cache.cc:277-291 | Every read or write request issued during a transfer starts at the consumed offset. Its length is exactly the bytes remaining. |
| PnaclTranslationCache.NextKeepsTransferable | chrome/browser/nacl_host/pnacl_translation_cache.cc:277-291 | One conforming completion keeps the consumed count within 0..size and the request equal to the rest of the buffer. |
| PnaclTranslationCache.RunKeepsTransferable | chrome/browser/nacl_host/pnacl_translation_cache.cc:224-298 | Over any sequence of completions that never report more bytes than requested, with a non-negative entry size, the consumed count stays within 0..size (the bound DidConsume checks) and every transfer request is exactly the rest of the buffer. |
| PnaclTranslationCache.StartedTransferable | chrome/browser/nacl_host/pnacl_translation_cache.cc:111-154 | A started read entry, and a started write entry holding a whole nexe, meet that invariant. |
| PnaclTranslationCache.TransferErrorDooms | chrome/browser/nacl_host/pnacl_translation_cache.cc:268-276 | A negative transfer result dooms the entry, posts the close and reports that error, once. |
| PnaclTranslationCache.ReadMiss | chrome/browser/nacl_host/pnacl_translation_cache.cc:234-247 | A read whose open fails finishes at once with that code, with no entry, no buffer and no close. |
| PnaclTranslationCache.WriteCreateFails | chrome/browser/nacl_host/pnacl_translation_cache.cc:234-264 | A write whose open fails moves to create. A failed create finishes with its error and does no transfer. |
| PnaclTranslationCache.TransferCompletes | chrome/browser/nacl_host/pnacl_translation_cache.cc:277-291 | Positive chunks that add up to the remaining bytes carry a transfer to close. The callback gets 0, and the buffer ends fully consumed for a write and rewound to 0 for a read. |
| PnaclTranslationCache.StoreSucceeds | chrome/browser/nacl_host/pnacl_translation_cache.cc:224-298 | A store whose open succeeds and whose chunks cover the nexe closes the entry undoomed and reports success once. |
| PnaclTranslationCache.Cache.constructor | chrome/browser/nacl_host/pnacl_translation_cache.cc:307 | A new cache has no backend and no open entries. |
| PnaclTranslationCache.Cache.OpComplete | chrome/browser/nacl_host/pnacl_translation_cache.cc:301-303 | The finished entry, and only it, leaves the open-entry set. |
| PnaclTranslationCache.Cache.Size | chrome/browser/nacl_host/pnacl_translation_cache.cc:392-396 | The size is -1 exactly when there is no backend, and otherwise the backend's entry count. |
| PnaclTranslationCache.Cache.OnCreateBackendComplete | chrome/browser/nacl_host/pnacl_translation_cache.cc:345-351 | A pending init callback gets the code once and is then cleared. |
| PnaclTranslationCache.Cache.Init | chrome/browser/nacl_host/pnacl_translation_cache.cc:324-343 | The backend is requested with the given type and size. A synchronous code is reported to the callback at once, and a pending one leaves the callback waiting. |
| PnaclTranslationCache.Cache.InitCache | chrome/browser/nacl_host/pnacl_translation_cache.cc:378-390 | The cache asks for a memory backend of 100 MiB or a disk backend of 1000 MiB, with Init's reporting rules. |
| PnaclTranslationCache.Cache.StoreNexe | chrome/browser/nacl_host/pnacl_translation_cache.cc:361-368 | A new write entry for the key and nexe joins the open set and starts in OPEN_ENTRY with an open request. |
| PnaclTranslationCache.Cache.GetNexe | chrome/browser/nacl_host/pnacl_translation_cache.cc:370-376 | A new read entry for the key joins the open set and starts in OPEN_ENTRY with an open request. |
| PnaclTranslationCache.Entry.constructor | chrome/browser/nacl_host/pnacl_translation_cache.cc:134-142 | A new entry is uninitialised, with no backend entry, no request and its callback pending if one was given. |
| PnaclTranslationCache.Entry.Start | chrome/browser/nacl_host/pnacl_translation_cache.cc:150-154 | Starting moves to OPEN_ENTRY and issues the open. |
| PnaclTranslationCache.Entry.OpenEntry | chrome/browser/nacl_host/pnacl_translation_cache.cc:158-165 | Issues the backend open for the key. Its completion is the next `DispatchNext`. |
| PnaclTranslationCache.Entry.CreateEntry | chrome/browser/nacl_host/pnacl_translation_cache.cc:167-174 | Issues the backend create for the key. |
| PnaclTranslationCache.Entry.WriteEntry | chrome/browser/nacl_host/pnacl_translation_cache.cc:176-187 | Issues a write of `len` bytes at `offset`. |
| PnaclTranslationCache.Entry.ReadEntry | chrome/browser/nacl_host/pnacl_translation_cache.cc:189-198 | Issues a read of `len` bytes at `offset`. |
| PnaclTranslationCache.Entry.Finish | chrome/browser/nacl_host/pnacl_translation_cache.cc:209-222 | Finishing reports the code if a callback is pending, clears it and removes the entry from the cache's open set. |
| PnaclTranslationCache.Entry.CloseEntry | chrome/browser/nacl_host/pnacl_translation_cache.cc:200-207 | Closing with a negative code dooms the entry. Then it posts the close and finishes with that code. |
| PnaclTranslationCache.Entry.DispatchNext | chrome/browser/nacl_host/pnacl_translation_cache.cc:224-298 | Once the cache is gone nothing changes. Otherwise the entry takes exactly the state-machine step, and leaves the open set exactly when it finished. |
| PnaclTranslationCache.GetKey | chrome/browser/nacl_host/pnacl_translation_cache.cc:399-429 | Builds "ABI:…;opt:…;URL:…;modified:…;etag:…", or "" for an invalid URL or a negative version. `GetKeyEmptyIff`, `InvalidTimeKeysAsNull` and `GetKeyDeterminesVersions` state its properties. |
| PnaclTranslationCache.GetKeyEmptyIff | chrome/browser/nacl_host/pnacl_translation_cache.cc:399-429 | The key is empty exactly when the URL is invalid or a version is negative. Otherwise it starts with "ABI:" and ends with "etag:" and the etag. |
| PnaclTranslationCache.InvalidTimeKeysAsNull | chrome/browser/nacl_host/pnacl_translation_cache.cc:409-424 | An invalid last-modified time gives the same key as no time at all, that is all date fields 0. |
| PnaclTranslationCache.GetKeyDeterminesVersions | chrome/browser/nacl_host/pnacl_translation_cache.cc:399-429 | Two infos with the same non-empty key have the same ABI version and optimisation level. |
| PnaclTranslationCache.ParseNatToString | chrome/browser/nacl_host/pnacl_translation_cache.cc:402-405 | The decimal text written for a version number reads back as that number. |
| DomStorageHost.Host.constructor | webkit/browser/dom_storage/dom_storage_host.cc:15-17 | A new host has no connections and has made no calls. |
| DomStorageHost.Host.Destroy | webkit/browser/dom_storage/dom_storage_host.cc:19-24 | Every open connection's area is closed on its namespace, once each, and the table ends empty. |
| DomStorageHost.Host.OpenStorageArea | webkit/browser/dom_storage/dom_storage_host.cc:26-39 | Opening fails, changing nothing, exactly when the id is already open or the namespace is unknown. Otherwise exactly that id is added and its area opened. |
| DomStorageHost.Host.CloseStorageArea | webkit/browser/dom_storage/dom_storage_host.cc:41-47 | Only that id leaves the table. Its area is closed if it was open, and an unknown id changes nothing. |
| DomStorageHost.Host.ExtractAreaValues | webkit/browser/dom_storage/dom_storage_host.cc:49-66 | An unknown id gives false and an empty map. Otherwise the area's values come back. Before that, if the area is not in memory and too many are, unopened areas are purged, and aggressively only if still too many. |
| DomStorageHost.Host.GetAreaLength | webkit/browser/dom_storage/dom_storage_host.cc:68-73 | The length is 0 for an unknown id, else the area's item count. |
| DomStorageHost.Host.GetAreaKey | webkit/browser/dom_storage/dom_storage_host.cc:75-81 | The key is null for an unknown id, else the area's key at that index. |
| DomStorageHost.Host.GetAreaItem | webkit/browser/dom_storage/dom_storage_host.cc:83-89 | An item is returned exactly when the id is open and the key is present, and it is that key's value. |
| DomStorageHost.Host.SetAreaItem | webkit/browser/dom_storage/dom_storage_host.cc:91-103 | Setting succeeds exactly when the id is open and the area accepts. Only then is the value stored, with a notification unless the old value equals the new one. |
| DomStorageHost.Host.RemoveAreaItem | webkit/browser/dom_storage/dom_storage_host.cc:105-115 | Removal succeeds exactly when the id is open and the key is present. It deletes only that key and notifies with the removed value. |
| DomStorageHost.Host.ClearArea | webkit/browser/dom_storage/dom_storage_host.cc:117-125 | Clearing succeeds exactly when the id is open and the area is non-empty. It then empties the area and notifies. |
| DomStorageHost.Host.HasAreaOpen | webkit/browser/dom_storage/dom_storage_host.cc:127-137 | True exactly when some open connection has that namespace and origin. |
| DomStorageHost.CloseCalls | webkit/browser/dom_storage/dom_storage_host.cc:19-24 | One close call per listed connection, in that order, each for that connection's area. |
| ResettableSettingsSnapshot.Sort | chrome/browser/profile_resetter/resettable_settings_snapshot.cc:33 | The result is sorted and a permutation of the input. |
| ResettableSettingsSnapshot.SortedPermutationUnique | chrome/browser/profile_resetter/resettable_settings_snapshot.cc:33 | Two sorted permutations of the same URLs are equal, so the sorted order is unique. |
| ResettableSettingsSnapshot.SortIdempotent | chrome/browser/profile_resetter/resettable_settings_snapshot.cc:33 | Sorting an already sorted list returns it unchanged. |
| ResettableSettingsSnapshot.LessTotal | chrome/browser/profile_resetter/resettable_settings_snapshot.cc:33 | The URL order is total. |
| ResettableSettingsSnapshot.LessTransitive | chrome/browser/profile_resetter/resettable_settings_snapshot.cc:33 | The URL order is transitive. |
| ResettableSettingsSnapshot.LessIrreflexive | chrome/browser/profile_resetter/resettable_settings_snapshot.cc:33 | The URL order is irreflexive, so it is a strict order. |
| ResettableSettingsSnapshot.LessAsymmetric | chrome/browser/profile_resetter/resettable_settings_snapshot.cc:33 | The URL order is asymmetric. |
| ResettableSettingsSnapshot.SetDifference | chrome/browser/profile_resetter/resettable_settings_snapshot.cc:50-58 | The difference of two sorted lists is sorted and is exactly the first list minus the second, as multisets. |
| ResettableSettingsSnapshot.SetDifferenceMembers | chrome/browser/profile_resetter/resettable_settings_snapshot.cc:50-58 | A URL listed once is in the difference exactly when it is in this list and not in the other. |
| ResettableSettingsSnapshot.Snapshot.constructor | chrome/browser/profile_resetter/resettable_settings_snapshot.cc:30-46 | The startup URLs are stored sorted, as a permutation of the profile's. The other fields are copied, with an empty search URL when there is no default engine. |
| ResettableSettingsSnapshot.Snapshot.SubtractStartupURLs | chrome/browser/profile_resetter/resettable_settings_snapshot.cc:50-58 | This snapshot keeps exactly its URLs that are not in the other's, still sorted. Nothing else changes. |
| ResettableSettingsSnapshot.Snapshot.FindDifferentFields | chrome/browser/profile_resetter/resettable_settings_snapshot.cc:60-84 | Each of the five bits is set exactly when that field differs, and no other bit is set. |
| ResettableSettingsSnapshot.FindDifferentFieldsSelf | chrome/browser/profile_resetter/resettable_settings_snapshot.cc:60-84 | A snapshot differs from itself in no field. |
| ResettableSettingsSnapshot.FindDifferentFieldsSymmetric | chrome/browser/profile_resetter/resettable_settings_snapshot.cc:60-84 | The mask does not depend on which snapshot is compared with which. |
| ResettableSettingsSnapshot.FindDifferentFieldsBound | chrome/browser/profile_resetter/resettable_settings_snapshot.cc:60-84 | The mask never exceeds ALL_FIELDS (31). |
| ResettableSettingsSnapshot.SerializeSettingsReport | chrome/browser/profile_resetter/resettable_settings_snapshot.cc:86-117 | The report has a key exactly for each bit in the mask and no other keys. Each value is that field of the snapshot, with the startup URLs in snapshot order. |
| PrerenderFieldTrial.OptionSettings | chrome/browser/prerender/prerender_field_trial.cc:195-211 | Prefetch is on unless the option is DISABLED. The mode is ENABLED exactly for ENABLED and otherwise DISABLED. |
| PrerenderFieldTrial.ParseOption | chrome/browser/prerender/prerender_field_trial.cc:170-193 | Maps the --prerender switch to an option: "auto" or no switch gives AUTO, "disabled" and unknown values give DISABLED, "" and "enabled" give ENABLED, "prefetch_only" gives PREFETCH_ONLY. `SwitchDecides` and `UnknownSwitchDisables` state this. |
| PrerenderFieldTrial.SwitchDecides | chrome/browser/prerender/prerender_field_trial.cc:170-211 | The switch leaves the choice to the trial exactly for "auto". Otherwise prerendering is on exactly for "" or "enabled", and prefetch also for "prefetch_only". |
| PrerenderFieldTrial.UnknownSwitchDisables | chrome/browser/prerender/prerender_field_trial.cc:186-193 | Any unrecognised switch value turns both prefetch and prerender off. |
| PrerenderFieldTrial.GroupMode | chrome/browser/prerender/prerender_field_trial.cc:65-155 | A field-trial group never selects the plain ENABLED or DISABLED mode; each group has its own experiment mode. |
| PrerenderFieldTrial.GroupModeInjective | chrome/browser/prerender/prerender_field_trial.cc:65-155 | Different trial groups select different modes. |
| PrerenderFieldTrial.PrerenderProbabilities | chrome/browser/prerender/prerender_field_trial.cc:77-108 | Each channel's five group probabilities sum to the divisor 1000. On stable and beta the multi-prerender and no-use experiment groups have probability 0. There the enabled group outweighs the control group and the 15-minute-TTL experiment together. |
| PrerenderFieldTrial.ConfigurePrefetchAndPrerender | chrome/browser/prerender/prerender_field_trial.cc:162-218 | An explicit switch sets the manager to that option's prefetch flag and mode. On auto the mode comes from the trial group, which has non-zero probability on the channel. Prefetch comes from its trial except on stable and beta, where it is left as it was. On stable and beta auto never selects the multi-prerender or no-use mode. |
| PrerenderFieldTrial.IsOmniboxEnabled | chrome/browser/prerender/prerender_field_trial.cc:252-278 | Enabled only with a profile and prerendering possible. "enabled" turns it on and "disabled" off. Otherwise it is on exactly when the trial is unset or in its default group. |
| PrerenderFieldTrial.OmniboxSwitchOverridesTrial | chrome/browser/prerender/prerender_field_trial.cc:253-270 | An "enabled" or "disabled" switch makes the trial group irrelevant. |
| PrerenderFieldTrial.GetLocalPredictorTTLSeconds | chrome/browser/prerender/prerender_field_trial.cc:314-323 | The TTL is always within 10..600. An in-range value is kept and any other becomes 180. |
| PrerenderFieldTrial.GetLocalPredictorPrerenderPriorityHalfLifeTimeSeconds | chrome/browser/prerender/prerender_field_trial.cc:325-335 | The half-life is never negative: a negative value becomes 0 and others are kept. |
| PrerenderFieldTrial.GetLocalPredictorMaxConcurrentPrerenders | chrome/browser/prerender/prerender_field_trial.cc:337-350 | The count is clamped into 1..10, keeping in-range values. |
| PrerenderFieldTrial.ClampsIdempotent | chrome/browser/prerender/prerender_field_trial.cc:314-350 | Applying any of the three clamps to its own result changes nothing. |
| ShillServiceClientStub.GetDictionary | chromeos/dbus/shill_service_client_stub.cc:481-490 | A dictionary is found exactly when the key is present and holds a dictionary, and it is that dictionary. |
| ShillServiceClientStub.FindDot | chromeos/dbus/shill_service_client_stub.cc:487 | Finds the first '.' of a path, or reports that there is none. |
| ShillServiceClientStub.SetWithoutDotIsPlain | chromeos/dbus/shill_service_client_stub.cc:487 | For a path without a dot, setting with path expansion is a plain set. |
| ShillServiceClientStub.DottedPathIsLost | chromeos/dbus/shill_service_client_stub.cc:481-490 | As written, creating the missing service "a.b" nests a dictionary "b" under "a". The service then cannot be found under "a.b". |
| ShillServiceClientStub.GetModifiableServiceProperties | chromeos/dbus/shill_service_client_stub.cc:481-490 | Afterwards the service's dictionary always exists under its path. An existing one is untouched, and a missing one is added empty, with nothing else changed. |
| ShillServiceClientStub.GetModifiableAgreesWithoutDot | chromeos/dbus/shill_service_client_stub.cc:481-490 | For dot-free paths the corrected and the as-written behaviours coincide. |
| ShillServiceClientStub.ChangesFor | chromeos/dbus/shill_service_client_stub.cc:107-121 | One property-changed notification per property, in order. |
| ShillServiceClientStub.Without | chromeos/dbus/shill_service_client_stub.cc:144-156 | Exactly the named keys are removed and all others keep their values. |
| ShillServiceClientStub.SetAllSnoc | chromeos/dbus/shill_service_client_stub.cc:112-119 | Setting a list of properties and then one more is the same as setting the longer list. |
| ShillServiceClientStub.MovesForSnoc | chromeos/dbus/shill_service_client_stub.cc:347-358 | An extra property adds a move-to-front call exactly when it sets State to online or portal. |
| ShillServiceClientStub.SetAllLookup | chromeos/dbus/shill_service_client_stub.cc:112-119 | After setting properties, a key is present exactly when it was before or was set. Keys not set keep their values. |
| ShillServiceClientStub.ShillServiceClientStub.constructor | chromeos/dbus/shill_service_client_stub.cc:44-46 | The stub starts with no services, no manager calls and no notifications. |
| ShillServiceClientStub.ShillServiceClientStub.GetServiceProperties | chromeos/dbus/shill_service_client_stub.cc:368-373 | The service's property dictionary found without path expansion, or none. `GetDictionary` states the lookup. |
| ShillServiceClientStub.ShillServiceClientStub.GetProperties | chromeos/dbus/shill_service_client_stub.cc:67-92 | A known service gives success and a copy of its properties without the Passphrase. An unknown one gives failure and an empty dictionary. |
| ShillServiceClientStub.ShillServiceClientStub.SetServiceProperty | chromeos/dbus/shill_service_client_stub.cc:338-366 | Fails, changing nothing, for an unknown service. Otherwise it stores the value under that name and notifies the change. Setting State to online or portal also moves the service to the front. |
| ShillServiceClientStub.ShillServiceClientStub.SetProperty | chromeos/dbus/shill_service_client_stub.cc:94-105 | Succeeds exactly for a known service. On success it stores the value under that name, posts one change notification, and moves the service to the front when State becomes online or portal. Otherwise nothing changes. |
| ShillServiceClientStub.ShillServiceClientStub.SetProperties | chromeos/dbus/shill_service_client_stub.cc:107-121 | An unknown service fails at the first key and changes nothing. Otherwise every property is set in order, with its notification and any move. |
| ShillServiceClientStub.ShillServiceClientStub.ClearProperty | chromeos/dbus/shill_service_client_stub.cc:123-137 | Fails, changing nothing, for an unknown service. Otherwise it removes only that key. |
| ShillServiceClientStub.ShillServiceClientStub.ClearProperties | chromeos/dbus/shill_service_client_stub.cc:139-161 | An unknown service is an error with no change. Otherwise the named keys are removed, with a list of true as long as the names. |
| ShillServiceClientStub.ShillServiceClientStub.GetLoadableProfileEntries | chromeos/dbus/shill_service_client_stub.cc:255-282 | Always succeeds and leaves the service present. It returns {profile -> path} exactly when the service had a string Profile, else an empty result. |
| ShillServiceClientStub.ShillServiceClientStub.AddServiceWithIPConfig | chromeos/dbus/shill_service_client_stub.cc:300-329 | The service exists afterwards with SSID = path, Name, Type and State, and IPConfig only for a non-empty ipconfig path. Its other properties and all other services are unchanged, and the manager is told once. |
| ShillServiceClientStub.ShillServiceClientStub.AddService | chromeos/dbus/shill_service_client_stub.cc:290-298 | As AddServiceWithIPConfig with no IP configuration. The service exists with SSID = path, Name, Type and State, and IPConfig is not written. Its other properties and all other services are unchanged, and the manager is told once. |
| ShillServiceClientStub.ShillServiceClientStub.RemoveService | chromeos/dbus/shill_service_client_stub.cc:331-336 | Only that service's entry is deleted, and the manager is told. |
| ShillServiceClientStub.ShillServiceClientStub.ClearServices | chromeos/dbus/shill_service_client_stub.cc:375-380 | All services are gone, and the manager is told to clear its list. |
| InputMethodWin.FeedWindowBounds | ui/views/ime/input_method_win.cc:370-374 | The feed window lies within the text and contains the target. It extends at most 20 characters on each side, and exactly 20 unless clipped at the text's end. |
| InputMethodWin.FilledFieldsExact | ui/views/ime/input_method_win.cc:376-398 | When the buffer is big enough, the lengths and offsets written into the 32-bit fields are not truncated. |
| InputMethodWin.OnDocumentFeed | ui/views/ime/input_method_win.cc:346-407 | Let "ready" mean a client whose text range is non-empty and contains the target. A null buffer gets the needed size, 32 + 2 × window length, exactly when ready, and 0 otherwise. A given buffer gets its address back exactly when ready, the buffer is at least that size and the text can be read. It then holds the window's text. Its target and composition offsets are 2 × (target start − window start), its target length is the target's length, and its composition length is 0 without a composition. Otherwise the result is 0 and the buffer is untouched. |
| InputMethodWin.OnReconvertString | ui/views/ime/input_method_win.cc:409-461 | Let "ready" mean a client with no composition and a non-empty text range and selection. A null buffer gets 32 + 2 × selection length exactly when ready, and 0 otherwise. A given buffer gets its address back exactly when ready, large enough and the selection's text can be read. It then holds the selection, with the composition and target both covering it at offset 0. Otherwise the result is 0 and the buffer is untouched. |
| InputMethodWin.OnQueryCharPosition | ui/views/ime/input_method_win.cc:463-482 | Returns 1 exactly for a big-enough structure, a client and a known character. The structure then holds that character's top-left and line height. Otherwise 0, and the structure is untouched. |
| InputMethodWin.OnImeRequest | ui/views/ime/input_method_win.cc:262-286 | For input types that disallow IME, the request is unhandled, returns 0 and touches no buffer. Otherwise exactly the three known requests are handled, each with its handler's full outcome, and the other buffer is left untouched. An unknown request touches neither buffer. |
| InputMethodWin.InputMethod.constructor | ui/views/ime/input_method_win.cc:25-35 | Starts with the popup closed and no pending direction. |
| InputMethodWin.InputMethod.OnImeNotify | ui/views/ime/input_method_win.cc:288-303 | OPENCANDIDATE sets the popup flag, CLOSECANDIDATE clears it and other notifications leave it. The message is never handled. |
| InputMethodWin.InputMethod.DispatchKeyEvent | ui/views/ime/input_method_win.cc:105-128 | The key is always dispatched. With an RTL layout and a text client: a Shift press records the Ctrl+Shift direction, a Ctrl press keeps it, and other presses reset it. A Shift or Ctrl release with a pending direction applies it once and resets it. |
| InputMethodWin.InputMethod.UpdateIMEState | ui/views/ime/input_method_win.cc:495-507 | IME is enabled exactly for input types other than NONE and PASSWORD. |
| GtkUtil.DispositionFromEventFlags | chrome/common/gtk_util.cc:23-32 | Middle button or Ctrl gives a foreground tab with Shift and a background tab without. Shift alone gives a new window, no modifier the current tab, and never save-to-disk. |
| GtkUtil.DispositionIgnoresOtherFlags | chrome/common/gtk_util.cc:23-32 | Flags other than Shift, Ctrl and the middle button never change the disposition. |
| GtkUtil.ScreenPositionAtWindow | chrome/common/gtk_util.cc:57-73 | The screen position is the sum of the allocation offsets below the first window in the chain, plus that window's position. |
| GtkUtil.ScreenPositionWithoutWindow | chrome/common/gtk_util.cc:57-76 | With no window in the chain, the screen position is the sum of all allocation offsets. |
| GtkUtil.GetWidgetScreenPosition | chrome/common/gtk_util.cc:57-76 | The parent-walking loop returns the screen position of the widget's chain. |
| GtkUtil.GetWidgetScreenBounds | chrome/common/gtk_util.cc:78-82 | The bounds' origin is the screen position and their size is the widget's own allocation. |
| FullStreamUiPolicy.GetKey | chrome/browser/extensions/activity_log/fullstream_ui_policy.cc:280-294 | The four key types map to their fixed strings, and the result is "" exactly for any other type. |
| FullStreamUiPolicy.StoredUrl | chrome/browser/extensions/activity_log/fullstream_ui_policy.cc:134-151 | Invalid URLs are not stored and incognito ones are stored as the placeholder. Otherwise the URL is stored without query and fragment unless the testing switch keeps them. |
| FullStreamUiPolicy.RowFor | chrome/browser/extensions/activity_log/fullstream_ui_policy.cc:123-155 | A row copies the action's id, time, type, API, args and other. The page title is stored exactly when it is non-empty and the page is not incognito, and incognito URLs become the placeholder. |
| FullStreamUiPolicy.ActionFromRow | chrome/browser/extensions/activity_log/fullstream_ui_policy.cc:207-247 | A read action copies the row's fields. Its args and other are kept exactly when they parse as a JSON list and a JSON dictionary. |
| FullStreamUiPolicy.RowRoundTrip | chrome/browser/extensions/activity_log/fullstream_ui_policy.cc:123-247 | A stored non-incognito action with well-formed JSON reads back with the same id, time, type, API, args, other and page title. |
| FullStreamUiPolicy.DayBounds | chrome/browser/extensions/activity_log/fullstream_ui_policy.cc:182-195 | Today's window runs from midnight to the end of time. An earlier day's window is exactly one day long and ends by midnight. |
| FullStreamUiPolicy.DayWindowsAbut | chrome/browser/extensions/activity_log/fullstream_ui_policy.cc:185-195 | Each day's window ends where the next-later day's begins. |
| FullStreamUiPolicy.InDayIff | chrome/browser/extensions/activity_log/fullstream_ui_policy.cc:182-199 | A time is in a day's window exactly when it falls on that day, so the windows partition time. |
| FullStreamUiPolicy.FullStreamUIPolicy.constructor | chrome/browser/extensions/activity_log/fullstream_ui_policy.cc:73-99 | The policy starts with an empty queue. The table holds the rows already stored in the persistent activity database, which later reads of earlier days see. |
| FullStreamUiPolicy.FullStreamUIPolicy.QueueAction | chrome/browser/extensions/activity_log/fullstream_ui_policy.cc:310-315 | With a valid database the action is appended and a flush is scheduled. Otherwise nothing changes. |
| FullStreamUiPolicy.FullStreamUIPolicy.OnDatabaseFailure | chrome/browser/extensions/activity_log/fullstream_ui_policy.cc:251-253 | The queue is emptied. |
| FullStreamUiPolicy.FullStreamUIPolicy.FlushDatabase | chrome/browser/extensions/activity_log/fullstream_ui_policy.cc:101-168 | Succeeds exactly for an empty queue, or when begin, every insert and commit succeed. Success empties the queue and appends one row per queued action. Failure keeps both the queue and the table. |
| FullStreamUiPolicy.FullStreamUIPolicy.DoReadData | chrome/browser/extensions/activity_log/fullstream_ui_policy.cc:170-249 | Without a database nothing is read. Otherwise the loop returns the selection of the extension's rows within that day's window. |
| FullStreamUiPolicy.Selected | chrome/browser/extensions/activity_log/fullstream_ui_policy.cc:196-247 | Every selected action belongs to the extension and falls inside the window, and there are no more than the rows. |
| FullStreamUiPolicy.SelectedFindsEveryRow | chrome/browser/extensions/activity_log/fullstream_ui_policy.cc:196-247 | Every row of the extension inside the window is selected. |

## Left out

- File I/O, the message loop and task posting, weak pointers, UMA histograms and net-log calls are left out. The data they carry (file contents, mtimes, directory listings, completion codes) becomes a parameter.
- The zlib CRC-32 is a parameter `crc`. The proofs hold for every CRC function.
- The pickle's 4-byte alignment padding is not modelled: every field the index writes is a multiple of four bytes, so there is none.
- SimpleIndexFile.PicklePayload and SimpleIndexFile.DeserializeIndex accept only the 8-byte header the writer produces. base::Pickle is not part of this model. It derives the header size from the data length and the stored payload size, and accepts any 4-aligned header size. So a file with a longer header and a matching CRC, which the source loads, is refused here.
- SimpleIndexFile.SerializeEntryMetadata and SimpleIndexFile.InsertInEntrySet: the 16-byte record (int64 last-used time, uint64 size) and the keep-existing insert come from the index's entry code, simple_index.cc, which is not part of this model. The layout follows the reads and writes in simple_index_file.cc, and the insert follows `hash_map::insert`.
- SimpleIndexFile: the index magic number and version are defined in a header that is not part of this model. The values used are stand-ins and no proof depends on them.
- SimpleIndexFile.WriteToDisk: only the serialisation it performs is modelled, by `Serialize` and `IndexRoundTrip`. The temporary file and rename are I/O.
- SimpleIndexFile.SyncRestoreFromDisk: the entry-file name pattern and the hex hash parser are parameters. Access and modification times come from the enumerator as given.
- PnaclTranslationCache: the disk_cache backend and entry objects are abstract. Their results arrive as the completion codes given to `DispatchNext`. Buffer contents are not modelled, only sizes and offsets.
- PnaclTranslationCache.GetKey: GURL's `ReplaceComponents` filtering and `Time::UTCExplode` are parameters, and `HasValidValues` is a predicate parameter.
- DomStorageHost: the DomStorageArea and DomStorageNamespace internals are abstract. An area is a key/value map that accepts or refuses a write through a parameter. `GetAreaKey` takes the area's key order as a parameter.
- DomStorageHost: the value of `kMaxInMemoryAreas` is declared outside this file. The model uses a stand-in and no proof depends on it.
- ResettableSettingsSnapshot: the profile's preference and template-URL services become constructor arguments. `SendSettingsFeedback` and the JSON writing of the report are left out, because they are I/O.
- ResettableSettingsSnapshot.Sort: the in-place `std::sort` is modelled as a pure insertion sort on a sequence. Its result is the unique sorted permutation (`SortedPermutationUnique`), so the order of the result is the same.
- PrerenderFieldTrial: the FieldTrial random draws and registration are left out. The group a trial picks is a parameter, and so is the channel.
- PrerenderFieldTrial: `ConfigureOmniboxPrerender`, `ConfigureLocalPredictor`, `IsLocalPredictorEnabled` and the other local-predictor switches are not modelled. They only register trials or read a group name.
- PrerenderFieldTrial.ConfigurePrefetchAndPrerender: the requirement that the group has non-zero probability holds for a random draw only. A group forced with `--force-fieldtrials` can have probability 0; `base::FieldTrial`'s forcing is not part of this model, so the release-channel promise (never multi-prerender or no-use) is not made for forced groups.
- PrerenderFieldTrial: `base::StringToInt` is not modelled. The clamps take the value it leaves in its output. As in the source, its success flag is ignored, so a partly parsed group name such as "12abc" is clamped as 12.
- ShillServiceClientStub.ShillServiceClientStub.constructor: starts with no services, because `SetDefaultProperties` (a fixed set of demo services) is left out.
- ShillServiceClientStub.ShillServiceClientStub.GetLoadableProfileEntries, AddServiceWithIPConfig and AddService create a missing service through the corrected `GetModifiableServiceProperties` (see Findings), not the as-written helper. On a path containing '.', such as "a.b", the source nests the new dictionary under "a". It can overwrite a property "b" of an existing service "a", and the service "a.b" stays unfindable. The model instead creates "a.b", so their `GetServiceProperties(path).Some?` promise holds only for the corrected helper. `GetModifiableAgreesWithoutDot` shows the two agree on every path without '.'.
- ShillServiceClientStub.Value: only string, integer, boolean and dictionary values are modelled. List, double, binary and null values of `base::Value` are not, so a property write with such a value cannot be represented.
- ShillServiceClientStub: `SetDefaultProperties`, `Connect`, `Disconnect`, `Remove`, the cellular activation calls and the observer lists are left out. Observer notifications are recorded as a list of (path, property) changes and manager calls as a list of calls.
- InputMethodWin: the IMM32 manager, the widget and focus plumbing, and the composition handlers (`OnImeStartComposition`, `OnImeComposition`, `OnImeEndComposition`, `OnChar`, `OnDeadChar`) are left out. They forward to IMM32 and the text input client.
- InputMethodWin: `OnImeSetContext` (ui/views/ime/input_method_win.cc:188-197) is left out. It only sets `active_` and forwards to IMM32.
- InputMethodWin: copying the text into the raw buffer after the header is modelled as the buffer's `text` field. The client's text retrieval and character bounds are parameters.
- InputMethodWin.OnDocumentFeed: the size arithmetic wraps modulo 2^64 as `size_t` does. The fields are truncated to 32 bits as DWORD assignment does. `FilledFieldsExact` shows the truncation never bites for any length whose size computation does not wrap. A length near 2^63 wraps the size to something small, and the buffer the check then accepts gets truncated fields, as in the source.
- GtkUtil: GTK widget calls are fields of the `Widget` class. C `int` overflow in the position sums is not modelled.
- FullStreamUiPolicy: SQL statements, transactions and `ORDER BY time DESC` are abstracted. The table is a list of rows in insertion order. Statement outcomes are parameters, and the read selects in table order.
- FullStreamUiPolicy.FullStreamUIPolicy.DoReadData: the query is assumed valid and every `Step` to succeed. In the source an invalid cached statement yields an empty list, and a step error partway through yields a truncated one; the model always returns the full selection.
- FullStreamUiPolicy: `InitDatabase` (dropping obsolete tables, creating the activity table if missing), `Close` and the JSON reader and writer are left out. The rows the database file already holds are the constructor's `table` argument. The JSON reader is a parameter that classifies text.
- FullStreamUiPolicy: the incognito placeholder is defined in a constants file that is not part of this model. The string used is a stand-in.
- FullStreamUiPolicy.DayBounds: int64 overflow of the bound arithmetic is not modelled. Local midnight is a parameter.

## Findings

| source | as written | input that shows it | evidently intended | confidence | as-written member | corrected member |
|---|---|---|---|---|---|---|
| chromeos/dbus/shill_service_client_stub.cc:487 | A missing service is created with `Set`, which splits the path at dots. It is looked up with `GetDictionaryWithoutPathExpansion`, which does not. | Service path "a.b" for an unknown service: the entry is stored as "a" → {"b" → {}}, and the next lookup of "a.b" still finds nothing. | Store the new dictionary with `SetWithoutPathExpansion`, so it is found under its own path. | not executed | ShillServiceClientStub.DottedPathIsLost | ShillServiceClientStub.GetModifiableServiceProperties |
