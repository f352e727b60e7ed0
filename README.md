# Rice Dryer: a verified model of the client and firmware rules

The Rice Dryer system drives a networked grain dryer. An ESP32 controller publishes its
state to a Firebase Realtime Database. An Android client and an older Java client read
that state, send commands and pair devices to user accounts with one-time pairing codes.
This project models, in Dafny, the decision rules and table operations of that system
and proves what they guarantee:

- the remote tree as maps (`devicePairing/{code}`, `devices/{id}`, `users/{uid}/devices`) and every write the clients issue (`remote.dfy`);
- the client's translation of a device snapshot and of its history (`translate.dfy`);
- the pairing check chain, the pairing and unpairing writes and the command record (`pairing.dfy`);
- the Room cache with SQLite's REPLACE, AUTOINCREMENT, ORDER BY and LIMIT (`local_cache.dfy`);
- the Kotlin repository that ties them together (`repository.dfy`);
- the legacy Java repository: its pairing rule, its listener registry and its device list (`legacy_repository.dfy`);
- the view-models and screens for pairing, the dashboard and the charts (`pairing_ui.dfy`, `dashboard.dfy`, `charts.dfy`);
- the string validators and the relative-time labels (`validation.dfy`, `time_ago.dfy`);
- the firmware's heater controller and Wi-Fi reconnect throttle (`temperature_controller.dfy`, `wifi_manager.dfy`).

Shared building blocks are `wrappers.dfy` (Option, Result), `seqs.dfy` (Kotlin `filter`,
stable `sortedByDescending`, `take`) and `text.dfy` (digits, `long` wrap-around,
`toLongOrNull`, `trim`, `isBlank`, casing).

Clocks, the signed-in user, network failures and the PID library are parameters.
Code that changes state in place is modelled as classes whose methods are proved against
functions of the old state. These classes are the Room DAOs, the repositories, the
view-models and the firmware objects.

Some behaviours look unintended. The model keeps them as written and proves them as
lemmas:
- the user index is appended at key "number of entries", which overwrites a surviving entry after an unpairing left a hole (`Pairing.AppendOverwritesSurvivor`, `Pairing.HoleScenario`);
- a pairing interrupted after its first write can never be completed by retrying (`Pairing.RetryAfterPartialPairingFails`);
- the two clients disagree on an expiry of 0 (`LegacyRepository.ZeroExpiryDisagreement`);
- re-caching a device clears its favourite flag (`Repository.ResyncClearsFavorite`);
- listening twice to a device leaks a listener (`LegacyRepository.DoubleListenLeaks`);
- a NaN temperature disables the overshoot cut-off (`TemperatureControl.NaNReadingBypassesCutoff`);
- a line break keeps a password from rating "Strong" (`Validation.DigitAfterLineBreakNotStrong`).

## Where the code departs from the intended behaviour

The model follows the code in each case:
- Snapshot translation is meant never to fail. In the code, a field of the wrong type makes the conversion throw, and the flow emits null (`Translate.TranslateDevice`).
- A repeated pairing is meant to complete a missing index entry. The code refuses the repeat before it reaches the append.
- A cached favourite is meant to survive re-syncs. The code's REPLACE insert rebuilds the row with `isFavorite = false`.
- The reading is meant to be cached before the summary. `cacheDeviceData` inserts the summary first.

## Model

| member | source | states |
|---|---|---|
| Text.ParseLong | source/android/RiceDryer/app/src/main/java/com/qppd/ricedryer/data/repository/DeviceRepository.kt:115 | toLongOrNull: a value iff the string is an optional sign and at least one digit whose signed value fits a long, and then exactly that value; a non-digit outside the sign position means no value |
| Text.ParseLongRejectsNonDigit | source/android/RiceDryer/app/src/main/java/com/qppd/ricedryer/data/repository/DeviceRepository.kt:115 | A character that is not a digit, other than a leading sign, gives null (a push-id key is not a number) |
| Text.ParseLongLeadingZero | source/android/RiceDryer/app/src/main/java/com/qppd/ricedryer/data/repository/DeviceRepository.kt:115 | A leading zero does not change the parsed value ("007" reads as 7) |
| Text.ParseLongPlusSign | source/android/RiceDryer/app/src/main/java/com/qppd/ricedryer/data/repository/DeviceRepository.kt:115 | A leading plus sign is accepted and ignored ("+5" reads as 5) |
| Text.ParseLongLoneSign | source/android/RiceDryer/app/src/main/java/com/qppd/ricedryer/data/repository/DeviceRepository.kt:115 | The empty string and a lone sign give null |
| Text.ParseLongOfNatToString | source/android/RiceDryer/app/src/main/java/com/qppd/ricedryer/data/repository/DeviceRepository.kt:115 | Every non-negative long rendered as decimal parses back to itself |
| Text.ParseLongOfNegative | source/android/RiceDryer/app/src/main/java/com/qppd/ricedryer/data/repository/DeviceRepository.kt:115 | A negative long rendered with a minus sign parses back to itself |
| Text.Wrap64 | source/android/app/src/main/java/com/qppd/ricedryer/utils/DateUtils.java:27 | JVM long arithmetic: the result is a long congruent to the true value modulo 2^64, and equal to it when it fits |
| Text.Uppercase | source/android/RiceDryer/app/src/main/java/com/qppd/ricedryer/ui/pairing/PairDeviceScreen.kt:80 | Same length, and no lowercase ASCII letter remains |
| Text.UppercaseIdempotent | source/android/RiceDryer/app/src/main/java/com/qppd/ricedryer/ui/pairing/PairDeviceScreen.kt:80 | Uppercasing an already uppercased id changes nothing |
| Text.UppercaseKeepsBlank | source/android/RiceDryer/app/src/main/java/com/qppd/ricedryer/ui/pairing/PairDeviceScreen.kt:80 | Uppercasing never turns a blank id into a non-blank one or back |
| DeviceModel.DefaultInfoIsUnowned | source/android/RiceDryer/app/src/main/java/com/qppd/ricedryer/data/model/DeviceData.kt:12-21 | A default DeviceInfo is unpaired (pairedTo ""), is named "Rice Dryer" and has expiry 0 |
| DeviceModel.DefaultReadingMatchesDefaultStatus | source/android/RiceDryer/app/src/main/java/com/qppd/ricedryer/data/model/DeviceData.kt:53-66 | Sample and status defaults agree: setpoints 40 and 20; heaterOn/fanOn (relay 1/2) false |
| DeviceModel.DefaultSettingsAreConsistent | source/android/RiceDryer/app/src/main/java/com/qppd/ricedryer/data/model/DeviceData.kt:37-44 | Default bounds are ordered (30 ≤ 40 ≤ 80, 10 ≤ 20 ≤ 50) and the unit is "C" |
| Translate.TranslateStatus | source/android/RiceDryer/app/src/main/java/com/qppd/ricedryer/data/repository/DeviceRepository.kt:53-65 | Succeeds iff every present status field has a convertible type; each number is the stored Long or Double, or 0/0/40/20 when absent; dryingActive, heaterOn (relay1Status) and fanOn (relay2Status) are the stored flag or false; both connectivity flags = online; lastUpdate is the Long, the truncated Double, or 0 |
| Translate.EmptyStatusIsDefault | source/android/RiceDryer/app/src/main/java/com/qppd/ricedryer/data/repository/DeviceRepository.kt:53-65 | An empty `current` node gives exactly the default DeviceStatus |
| RemoteTree.ReadFloat | source/android/RiceDryer/app/src/main/java/com/qppd/ricedryer/data/repository/DeviceRepository.kt:54-57 | getValue(Float): succeeds iff the child is absent or a number; the value is the number, or the default when absent |
| RemoteTree.ReadLong | source/android/RiceDryer/app/src/main/java/com/qppd/ricedryer/data/repository/DeviceRepository.kt:63 | getValue(Long): absent gives the default, a Long its value, a Double its truncation when that fits a long; a boolean or a string fails |
| RemoteTree.ReadBool | source/android/RiceDryer/app/src/main/java/com/qppd/ricedryer/data/repository/DeviceRepository.kt:58-62 | getValue(Boolean): succeeds iff absent or boolean; the value is the flag, or the default when absent |
| Translate.UnknownStatusFieldIgnored | source/android/RiceDryer/app/src/main/java/com/qppd/ricedryer/data/repository/DeviceRepository.kt:50-65 | Adding a child the translation does not read leaves the result unchanged |
| Translate.PartialStatusExample | source/android/RiceDryer/app/src/main/java/com/qppd/ricedryer/data/repository/DeviceRepository.kt:53-65 | A partial `current` node fills the missing fields with their defaults |
| Translate.DecodeInfo | source/android/RiceDryer/app/src/main/java/com/qppd/ricedryer/data/repository/DeviceRepository.kt:69 | An absent deviceInfo is the default; a decoded pairedTo is the stored string or "" |
| Translate.DecodeSettings | source/android/RiceDryer/app/src/main/java/com/qppd/ricedryer/data/repository/DeviceRepository.kt:71 | An absent settings node is the default DeviceSettings |
| Translate.DecodeCommands | source/android/RiceDryer/app/src/main/java/com/qppd/ricedryer/data/repository/DeviceRepository.kt:72 | An absent commands node is the default; without a `command` child, command is "" |
| Translate.TranslateDevice | source/android/RiceDryer/app/src/main/java/com/qppd/ricedryer/data/repository/DeviceRepository.kt:47-83 | A record is emitted iff all four parts convert (otherwise null); it carries the device id and the translated status |
| Translate.MissingDeviceIsDefault | source/android/RiceDryer/app/src/main/java/com/qppd/ricedryer/data/repository/DeviceRepository.kt:67-73 | A device with no node at all yields the all-default record |
| Translate.EntryTimestamp | source/android/RiceDryer/app/src/main/java/com/qppd/ricedryer/data/repository/DeviceRepository.kt:114-116 | The explicit timestamp (Long, or a Double truncated when it fits); without one, the key parsed as a long times 1000 with long wrap-around, else 0; a boolean or string timestamp child fails the entry |
| Translate.KeySecondsBecomeMilliseconds | source/android/RiceDryer/app/src/main/java/com/qppd/ricedryer/data/repository/DeviceRepository.kt:115 | A key of n seconds with no timestamp child gives n*1000 |
| Translate.NonNumericKeyIsZero | source/android/RiceDryer/app/src/main/java/com/qppd/ricedryer/data/repository/DeviceRepository.kt:114-116 | A key with a non-digit, such as a push id, and no timestamp child gives timestamp 0 |
| Translate.ParseEntry | source/android/RiceDryer/app/src/main/java/com/qppd/ricedryer/data/repository/DeviceRepository.kt:103-127 | A parsed entry has the entry timestamp, and heaterOn is relay1Status |
| Translate.ParsedEntries | source/android/RiceDryer/app/src/main/java/com/qppd/ricedryer/data/repository/DeviceRepository.kt:102-131 | mapNotNull never yields more samples than children |
| Translate.ParsedEntriesSound | source/android/RiceDryer/app/src/main/java/com/qppd/ricedryer/data/repository/DeviceRepository.kt:102-131 | Every sample comes from a child that parses to exactly that sample |
| Translate.ParsedEntriesComplete | source/android/RiceDryer/app/src/main/java/com/qppd/ricedryer/data/repository/DeviceRepository.kt:102-131 | Every child that parses contributes its sample |
| Translate.ParseHistory | source/android/RiceDryer/app/src/main/java/com/qppd/ricedryer/data/repository/DeviceRepository.kt:102-132 | Result sorted by timestamp descending; length is min(limit, parsed); it is a sub-multiset of the parsed samples, and all of them when they fit |
| Translate.HistoryKeepsNewest | source/android/RiceDryer/app/src/main/java/com/qppd/ricedryer/data/repository/DeviceRepository.kt:132 | A parsed sample that is left out is no newer than any delivered one |
| Translate.MalformedEntryDropped | source/android/RiceDryer/app/src/main/java/com/qppd/ricedryer/data/repository/DeviceRepository.kt:128-131 | A child that fails to parse is dropped, and the rest of the batch is delivered unchanged |
| Translate.UserDeviceIds | source/android/RiceDryer/app/src/main/java/com/qppd/ricedryer/data/repository/DeviceRepository.kt:28 | getUserDevices lists only string children, and every string child appears |
| Translate.UserDeviceIdsOne | source/android/RiceDryer/app/src/main/java/com/qppd/ricedryer/data/repository/DeviceRepository.kt:28 | One child is listed as its string iff it is a string, else skipped |
| Translate.UserDeviceIdsConcat | source/android/RiceDryer/app/src/main/java/com/qppd/ricedryer/data/repository/DeviceRepository.kt:28 | The list follows child order and keeps repeats: listing a + b is listing a, then b |
| Pairing.PairCheck | source/android/RiceDryer/app/src/main/java/com/qppd/ricedryer/data/repository/DeviceRepository.kt:169-206 | Fail-fast chain, each failure stated with its own message: missing code, mismatch, used, expired (only expiresAt > 0 and now past it), device not found, deviceInfo that does not convert, already paired (pairedTo neither "" nor "null"); success iff all pass, returning the decoded info |
| Pairing.MismatchExample | source/android/RiceDryer/app/src/main/java/com/qppd/ricedryer/data/repository/DeviceRepository.kt:179-185 | A code issued for another device is refused with the mismatch message |
| Pairing.PairWrites | source/android/RiceDryer/app/src/main/java/com/qppd/ricedryer/data/repository/DeviceRepository.kt:209-221 | The writes in order: pairedTo, then used, pairedTo and pairedAt on the code; a fifth write appends at key = count of string entries iff the id is not listed |
| Pairing.ClaimKeepsUsers | source/android/RiceDryer/app/src/main/java/com/qppd/ricedryer/data/repository/DeviceRepository.kt:209-214 | None of the first four writes touches the users subtree |
| Pairing.DecodeInfoWithOwner | source/android/RiceDryer/app/src/main/java/com/qppd/ricedryer/data/repository/DeviceRepository.kt:199-209 | Setting pairedTo changes only the decoded owner |
| Pairing.AfterOneWrite | source/android/RiceDryer/app/src/main/java/com/qppd/ricedryer/data/repository/DeviceRepository.kt:209 | After the first write only the device's owner has changed |
| Pairing.LaterWriteKeepsClaim | source/android/RiceDryer/app/src/main/java/com/qppd/ricedryer/data/repository/DeviceRepository.kt:212-220 | Writes after `used` keep the code used and still naming the device |
| Pairing.CodeUsedFromSecondWrite | source/android/RiceDryer/app/src/main/java/com/qppd/ricedryer/data/repository/DeviceRepository.kt:212-214 | From the second write on, the code exists, names the device and is used |
| Pairing.RetryAfterPartialPairingFails | source/android/RiceDryer/app/src/main/java/com/qppd/ricedryer/data/repository/DeviceRepository.kt:188-206 | After a crash after any write, the same request fails: "already used" from write 2 on, "Device already paired" after write 1 unless the code expired |
| Pairing.CodeIsSingleUse | source/android/RiceDryer/app/src/main/java/com/qppd/ricedryer/data/repository/DeviceRepository.kt:187-190 | After a completed pairing, every attempt with that code fails, for any device and any time |
| Pairing.AppendOverwritesSurvivor | source/android/RiceDryer/app/src/main/java/com/qppd/ricedryer/data/repository/DeviceRepository.kt:217-221 | When the count key already holds another device, pairing overwrites it and that device drops out of the index |
| Pairing.HoleScenario | source/android/RiceDryer/app/src/main/java/com/qppd/ricedryer/data/repository/DeviceRepository.kt:217-221 | Index {"1": B} after pairing C becomes {"1": C} |
| Pairing.IndexWithout | source/android/RiceDryer/app/src/main/java/com/qppd/ricedryer/data/repository/DeviceRepository.kt:237-243 | Removes every entry equal to the id and keeps every other entry |
| Pairing.Unpaired | source/android/RiceDryer/app/src/main/java/com/qppd/ricedryer/data/repository/DeviceRepository.kt:231-243 | Unpairing removes the device's pairedTo and nothing else of that device, leaves other devices, the pairing codes and other users alone, and the user's index becomes IndexWithout |
| Pairing.UnpairFreesDeviceNotCode | source/android/RiceDryer/app/src/main/java/com/qppd/ricedryer/data/repository/DeviceRepository.kt:234-243 | After unpairing, the device is unowned and unlisted, while a consumed code still fails as used |
| Pairing.CommandRecord | source/android/RiceDryer/app/src/main/java/com/qppd/ricedryer/data/repository/DeviceRepository.kt:153-158 | The command node has exactly action, value, timestamp and processed=false, and no `command` |
| Pairing.CommandReadBackLosesAction | source/android/RiceDryer/app/src/main/java/com/qppd/ricedryer/data/model/DeviceData.kt:46-51 | Reading a written command back through DeviceCommands gives command "" |
| LocalCache.DeviceListOrder | source/android/RiceDryer/app/src/main/java/com/qppd/ricedryer/data/local/DeviceDao.kt:11-12 | getAllDevices holds each row once, with favourites first and each group by lastUpdate descending |
| LocalCache.Lookup | source/android/RiceDryer/app/src/main/java/com/qppd/ricedryer/data/local/DeviceDao.kt:14-15 | getDevice finds a row iff one has that id, and returns such a row |
| LocalCache.LookupFindsRow | source/android/RiceDryer/app/src/main/java/com/qppd/ricedryer/data/local/CachedDevice.kt:8-9 | Under the primary key, a lookup returns the stored row |
| LocalCache.WithFavorite | source/android/RiceDryer/app/src/main/java/com/qppd/ricedryer/data/local/DeviceDao.kt:23-24 | updateFavorite keeps the row count and every row's key |
| LocalCache.UpdateFavoriteEffect | source/android/RiceDryer/app/src/main/java/com/qppd/ricedryer/data/local/DeviceDao.kt:23-24 | Only the flag of the matching row changes; no-op when none matches; other rows untouched |
| LocalCache.ReadingsQueryShape | source/android/RiceDryer/app/src/main/java/com/qppd/ricedryer/data/local/DeviceDao.kt:29-30 | getReadings returns a sub-multiset of that device's readings, newest first, min(limit, count) of them (all when the limit is negative) |
| LocalCache.ReadingsQueryKeepsNewest | source/android/RiceDryer/app/src/main/java/com/qppd/ricedryer/data/local/DeviceDao.kt:29-30 | A reading of the device that is left out is no newer than any returned |
| LocalCache.RangeQueryAscending | source/android/RiceDryer/app/src/main/java/com/qppd/ricedryer/data/local/DeviceDao.kt:32-33 | getReadingsInRange is a permutation of the matching readings, in ascending time |
| LocalCache.RangeQueryMembers | source/android/RiceDryer/app/src/main/java/com/qppd/ricedryer/data/local/DeviceDao.kt:32-33 | Returned iff the reading is the device's and start ≤ timestamp ≤ end, inclusive |
| LocalCache.PruneKeepsRecentRange | source/android/RiceDryer/app/src/main/java/com/qppd/ricedryer/data/local/DeviceDao.kt:41-42 | Pruning at t never changes a range query starting at or after t |
| LocalCache.PruneExact | source/android/RiceDryer/app/src/main/java/com/qppd/ricedryer/data/local/DeviceDao.kt:41-42 | deleteOldReadings keeps every copy with timestamp ≥ t and none older, across all devices |
| LocalCache.DeviceReadingsRemovedExact | source/android/RiceDryer/app/src/main/java/com/qppd/ricedryer/data/local/DeviceDao.kt:38-39 | deleteReadingsForDevice removes all and only that device's readings |
| LocalCache.InsertReadingKeepsKeys | source/android/RiceDryer/app/src/main/java/com/qppd/ricedryer/data/local/CachedDevice.kt:20-21 | REPLACE insert keeps ids unique and bounded; id 0 appends a row with a fresh id, so the same snapshot twice gives two rows |
| LocalCache.DeviceCache.constructor | source/android/RiceDryer/app/src/main/java/com/qppd/ricedryer/data/local/CachedDevice.kt:6-7 | Both tables start empty |
| LocalCache.DeviceCache.GetAllDevices | source/android/RiceDryer/app/src/main/java/com/qppd/ricedryer/data/local/DeviceDao.kt:11-12 | Returns the device list of the table |
| LocalCache.DeviceCache.GetDevice | source/android/RiceDryer/app/src/main/java/com/qppd/ricedryer/data/local/DeviceDao.kt:14-15 | Returns the lookup of the id |
| LocalCache.DeviceCache.InsertDevice | source/android/RiceDryer/app/src/main/java/com/qppd/ricedryer/data/local/DeviceDao.kt:17-18 | Deletes the row with that key and appends the new row; the key stays unique and the lookup gives the new row |
| LocalCache.DeviceCache.DeleteDevice | source/android/RiceDryer/app/src/main/java/com/qppd/ricedryer/data/local/DeviceDao.kt:20-21 | Removes only the row with that id; readings untouched |
| LocalCache.DeviceCache.UpdateFavorite | source/android/RiceDryer/app/src/main/java/com/qppd/ricedryer/data/local/DeviceDao.kt:23-24 | Table becomes WithFavorite; readings untouched |
| LocalCache.DeviceCache.GetReadings | source/android/RiceDryer/app/src/main/java/com/qppd/ricedryer/data/local/DeviceDao.kt:29-30 | Returns ReadingsQuery |
| LocalCache.DeviceCache.GetReadingsInRange | source/android/RiceDryer/app/src/main/java/com/qppd/ricedryer/data/local/DeviceDao.kt:32-33 | Returns RangeQuery |
| LocalCache.DeviceCache.InsertReading | source/android/RiceDryer/app/src/main/java/com/qppd/ricedryer/data/local/DeviceDao.kt:35-36 | REPLACE with AUTOINCREMENT: id 0 appends with lastId+1; the sequence advances to the max |
| LocalCache.DeviceCache.DeleteReadingsForDevice | source/android/RiceDryer/app/src/main/java/com/qppd/ricedryer/data/local/DeviceDao.kt:38-39 | Readings become those of other devices |
| LocalCache.DeviceCache.DeleteOldReadings | source/android/RiceDryer/app/src/main/java/com/qppd/ricedryer/data/local/DeviceDao.kt:41-42 | Readings become those with timestamp ≥ cutoff |
| Repository.ResyncClearsFavorite | source/android/RiceDryer/app/src/main/java/com/qppd/ricedryer/data/repository/DeviceRepository.kt:266-274 | Re-caching a favourite device leaves its row with isFavorite false |
| Repository.HistoryDelivery | source/android/RiceDryer/app/src/main/java/com/qppd/ricedryer/data/repository/DeviceRepository.kt:99-147 | At most limit samples, sorted descending; with at most limit children it is the parsed history, otherwise exactly the samples of the last limit children |
| Repository.ListedIffIndexed | source/android/RiceDryer/app/src/main/java/com/qppd/ricedryer/data/repository/DeviceRepository.kt:25-30 | getUserDevices lists a device iff the index holds its id as a string |
| Repository.DeviceRepository.constructor | source/android/RiceDryer/app/src/main/java/com/qppd/ricedryer/data/repository/DeviceRepository.kt:18-22 | Binds the remote tree and the cache |
| Repository.DeviceRepository.CacheDeviceData | source/android/RiceDryer/app/src/main/java/com/qppd/ricedryer/data/repository/DeviceRepository.kt:264-292 | Summary row replaced (favourite false), then one reading appended with a fresh id |
| Repository.DeviceRepository.OnDeviceSnapshot | source/android/RiceDryer/app/src/main/java/com/qppd/ricedryer/data/repository/DeviceRepository.kt:47-83 | Emits the translation; caches it when it exists, leaves the cache alone when null |
| Repository.DeviceRepository.GetCachedDevices | source/android/RiceDryer/app/src/main/java/com/qppd/ricedryer/data/repository/DeviceRepository.kt:295-297 | The cache's device list |
| Repository.DeviceRepository.GetCachedReadings | source/android/RiceDryer/app/src/main/java/com/qppd/ricedryer/data/repository/DeviceRepository.kt:300-302 | The cache's readings query |
| Repository.DeviceRepository.SendCommand | source/android/RiceDryer/app/src/main/java/com/qppd/ricedryer/data/repository/DeviceRepository.kt:150-166 | The device's commands node becomes exactly the command record |
| Repository.DeviceRepository.UpdateDeviceName | source/android/RiceDryer/app/src/main/java/com/qppd/ricedryer/data/repository/DeviceRepository.kt:253-261 | deviceInfo/deviceName becomes the name |
| Repository.DeviceRepository.CommitPairing | source/android/RiceDryer/app/src/main/java/com/qppd/ricedryer/data/repository/DeviceRepository.kt:208-221 | Applies the pairing writes in order |
| Repository.DeviceRepository.PairDevice | source/android/RiceDryer/app/src/main/java/com/qppd/ricedryer/data/repository/DeviceRepository.kt:169-228 | Result is PairCheck on the state as read; no write on failure; the pairing writes on success |
| Repository.DeviceRepository.UnpairDevice | source/android/RiceDryer/app/src/main/java/com/qppd/ricedryer/data/repository/DeviceRepository.kt:231-250 | The tree becomes Unpaired (visiting the index children one by one) |
| LegacyRepository.WritesOnlyOnSuccess | source/android/app/src/main/java/com/qppd/ricedryer/data/repository/DeviceRepository.java:128-166 | Writes happen iff onSuccess; an error or a crash writes nothing |
| LegacyRepository.LegacyPair | source/android/app/src/main/java/com/qppd/ricedryer/data/repository/DeviceRepository.java:124-174 | A read error reports its message; then missing code, used, present expiry in the past, missing deviceId, each with its message; a child of the wrong type at any check throws (no callback, no write); success gives onSuccess(deviceId) and the four writes |
| LegacyRepository.LegacyCheckOrder | source/android/app/src/main/java/com/qppd/ricedryer/data/repository/DeviceRepository.java:128-149 | On records of the expected types: used false or absent passes, a present expiry in the past fails, otherwise a string deviceId succeeds with that id and a missing one fails; a used child of another type throws and neither callback runs |
| LegacyRepository.ZeroExpiryDisagreement | source/android/app/src/main/java/com/qppd/ricedryer/data/repository/DeviceRepository.java:139-143 | An expiry of 0 is expired for the legacy client but never expires for the current one |
| LegacyRepository.LegacyTakesOwnedDevice | source/android/app/src/main/java/com/qppd/ricedryer/data/repository/DeviceRepository.java:145-166 | With no already-paired check, an owned device is taken over and its pairedTo and deviceName are overwritten |
| LegacyRepository.LegacyPairingInvisibleToCurrentClient | source/android/app/src/main/java/com/qppd/ricedryer/data/repository/DeviceRepository.java:155-160 | The record-shaped index entry never adds a string entry the current client lists |
| LegacyRepository.LegacyCodeIsSingleUse | source/android/app/src/main/java/com/qppd/ricedryer/data/repository/DeviceRepository.java:133-137 | After a legacy success the same code is refused as used |
| LegacyRepository.LoadUserDevices | source/android/app/src/main/java/com/qppd/ricedryer/data/repository/DeviceRepository.java:49-68 | A successful listing holds only record children with a string deviceName, keyed by the child key, and never more devices than children |
| LegacyRepository.LegacyEntry | source/android/app/src/main/java/com/qppd/ricedryer/data/repository/DeviceRepository.java:54-62 | A string child or one without deviceName is skipped; a non-string deviceName throws; a missing pairedAt throws the unboxing exception; otherwise the device with its key, name and pairedAt |
| LegacyRepository.LoadOneChild | source/android/app/src/main/java/com/qppd/ricedryer/data/repository/DeviceRepository.java:54-62 | The listing of one child is its device when kept, empty when skipped, or its exception |
| LegacyRepository.LoadUserDevicesConcat | source/android/app/src/main/java/com/qppd/ricedryer/data/repository/DeviceRepository.java:54-66 | Children are listed in order: listing a + b is listing a, then b, and the first exception ends the listing |
| LegacyRepository.LoadUserDevicesFails | source/android/app/src/main/java/com/qppd/ricedryer/data/repository/DeviceRepository.java:54-66 | The listing throws iff some child throws |
| LegacyRepository.LoadListsRecordsSkipsStrings | source/android/app/src/main/java/com/qppd/ricedryer/data/repository/DeviceRepository.java:54-62 | A record child is listed with its name and pairedAt; a plain string child is skipped |
| LegacyRepository.LegacyCommandRecord | source/android/app/src/main/java/com/qppd/ricedryer/data/model/Command.java:4-16 | The serialised Command has exactly action, value, timestamp, acknowledged |
| LegacyRepository.ListenKeepsValid | source/android/app/src/main/java/com/qppd/ricedryer/data/repository/DeviceRepository.java:93-111 | Listening keeps the registry consistent and never reduces the orphans |
| LegacyRepository.StopKeepsValid | source/android/app/src/main/java/com/qppd/ricedryer/data/repository/DeviceRepository.java:113-118 | Stopping removes the id's entry, detaches only the recorded listener, and orphans stay attached |
| LegacyRepository.DoubleListenLeaks | source/android/app/src/main/java/com/qppd/ricedryer/data/repository/DeviceRepository.java:109-117 | Listen twice then stop: the first listener stays attached with nothing to detach it |
| LegacyRepository.LegacyDeviceRepository.constructor | source/android/app/src/main/java/com/qppd/ricedryer/data/repository/DeviceRepository.java:27-32 | The listener map starts empty |
| LegacyRepository.LegacyDeviceRepository.ListenToDeviceData | source/android/app/src/main/java/com/qppd/ricedryer/data/repository/DeviceRepository.java:93-111 | Registry becomes Listen |
| LegacyRepository.LegacyDeviceRepository.StopListeningToDevice | source/android/app/src/main/java/com/qppd/ricedryer/data/repository/DeviceRepository.java:113-118 | Registry becomes StopListening |
| LegacyRepository.LegacyDeviceRepository.SendCommand | source/android/app/src/main/java/com/qppd/ricedryer/data/repository/DeviceRepository.java:120-122 | commands node becomes the serialised Command |
| LegacyRepository.LegacyDeviceRepository.PairDevice | source/android/app/src/main/java/com/qppd/ricedryer/data/repository/DeviceRepository.java:124-174 | Outcome of the legacy checks; on success its four writes are applied in order |
| PairingUi.Settled | source/android/RiceDryer/app/src/main/java/com/qppd/ricedryer/ui/pairing/PairDeviceViewModel.kt:48-55 | Success(info) on success; Error(message), or "Pairing failed" when the failure has no message |
| PairingUi.EnabledRequestIsWellFormed | source/android/RiceDryer/app/src/main/java/com/qppd/ricedryer/ui/pairing/PairDeviceScreen.kt:171-173 | A request the enabled button sends passes the view-model's own checks |
| PairingUi.DigitBox | source/android/RiceDryer/app/src/main/java/com/qppd/ricedryer/ui/pairing/PairDeviceScreen.kt:113 | Box i shows code[i] when i < length, otherwise "" |
| PairingUi.BoxesSpellCode | source/android/RiceDryer/app/src/main/java/com/qppd/ricedryer/ui/pairing/PairDeviceScreen.kt:112-113 | The six boxes read left to right spell the entered code |
| PairingUi.PairForm.constructor | source/android/RiceDryer/app/src/main/java/com/qppd/ricedryer/ui/pairing/PairDeviceScreen.kt:29-30 | Both fields start empty |
| PairingUi.PairForm.OnDeviceIdChange | source/android/RiceDryer/app/src/main/java/com/qppd/ricedryer/ui/pairing/PairDeviceScreen.kt:80 | The device id is stored uppercased |
| PairingUi.PairForm.OnCodeChange | source/android/RiceDryer/app/src/main/java/com/qppd/ricedryer/ui/pairing/PairDeviceScreen.kt:143-147 | A new value is accepted iff ≤ 6 digits, otherwise the old code stays; the stored code is always ≤ 6 digits |
| PairingUi.PairDeviceViewModel.constructor | source/android/RiceDryer/app/src/main/java/com/qppd/ricedryer/ui/pairing/PairDeviceViewModel.kt:25 | The state starts as Idle |
| PairingUi.PairDeviceViewModel.PairDevice | source/android/RiceDryer/app/src/main/java/com/qppd/ricedryer/ui/pairing/PairDeviceViewModel.kt:30-57 | No user gives Error("User not authenticated"); then blank id or code length ≠ 6 gives the invalid-input error, with no repository call; otherwise Loading, then the settled result of the repository call |
| PairingUi.PairDeviceViewModel.ResetState | source/android/RiceDryer/app/src/main/java/com/qppd/ricedryer/ui/pairing/PairDeviceViewModel.kt:59-61 | The state returns to Idle |
| Dashboard.InitialState | source/android/RiceDryer/app/src/main/java/com/qppd/ricedryer/ui/dashboard/DashboardViewModel.kt:11-16 | isLoading true, no data, no error, command status Idle |
| Dashboard.CommandFor | source/android/RiceDryer/app/src/main/java/com/qppd/ricedryer/ui/dashboard/DashboardViewModel.kt:56-70 | START/STOP with value 0, SET_TEMP/SET_HUMIDITY with the given value |
| Dashboard.ActionOf | source/android/RiceDryer/app/src/main/java/com/qppd/ricedryer/ui/dashboard/DashboardViewModel.kt:56-72 | Decoding a command gives back a request that maps to it |
| Dashboard.CommandForRoundTrip | source/android/RiceDryer/app/src/main/java/com/qppd/ricedryer/ui/dashboard/DashboardViewModel.kt:56-72 | Each request is recovered from its command, so no two requests send the same command |
| Dashboard.Finished | source/android/RiceDryer/app/src/main/java/com/qppd/ricedryer/ui/dashboard/DashboardViewModel.kt:78-83 | Success iff the send succeeded; otherwise Error(message) or "Command failed" |
| Dashboard.SentCommandNamesAction | source/android/RiceDryer/app/src/main/java/com/qppd/ricedryer/ui/dashboard/DashboardViewModel.kt:72-76 | After a send the device's command node carries the request's action |
| Dashboard.DashboardViewModel.constructor | source/android/RiceDryer/app/src/main/java/com/qppd/ricedryer/ui/dashboard/DashboardViewModel.kt:30 | The state starts as InitialState |
| Dashboard.DashboardViewModel.OnDeviceData | source/android/RiceDryer/app/src/main/java/com/qppd/ricedryer/ui/dashboard/DashboardViewModel.kt:46-51 | Data replaced, loading false, error cleared |
| Dashboard.DashboardViewModel.OnDeviceError | source/android/RiceDryer/app/src/main/java/com/qppd/ricedryer/ui/dashboard/DashboardViewModel.kt:40-45 | Loading false, error = the message |
| Dashboard.DashboardViewModel.Send | source/android/RiceDryer/app/src/main/java/com/qppd/ricedryer/ui/dashboard/DashboardViewModel.kt:72-89 | Status Sending, then Finished, then Idle; the command record is written only on success |
| Dashboard.DashboardViewModel.ResetCommandStatus | source/android/RiceDryer/app/src/main/java/com/qppd/ricedryer/ui/dashboard/DashboardViewModel.kt:91-93 | The command status returns to Idle |
| Charts.TimeRange.Milliseconds | source/android/RiceDryer/app/src/main/java/com/qppd/ricedryer/ui/charts/ChartsViewModel.kt:18-23 | The ranges are 1 h, 6 h, 24 h and 7 days in milliseconds |
| Charts.RangesIncrease | source/android/RiceDryer/app/src/main/java/com/qppd/ricedryer/ui/charts/ChartsViewModel.kt:18-23 | The ranges grow strictly |
| Charts.InitialState | source/android/RiceDryer/app/src/main/java/com/qppd/ricedryer/ui/charts/ChartsViewModel.kt:11-16 | No readings, loading, no error, LAST_HOUR |
| Charts.WindowFilterExact | source/android/RiceDryer/app/src/main/java/com/qppd/ricedryer/ui/charts/ChartsViewModel.kt:64-69 | Exactly the readings with timestamp ≥ now − range, in the original order |
| Charts.WiderRangeKeepsMore | source/android/RiceDryer/app/src/main/java/com/qppd/ricedryer/ui/charts/ChartsViewModel.kt:67-69 | A wider range keeps a superset: filtering its result by the narrower range gives the narrower result |
| Charts.ChartsViewModel.constructor | source/android/RiceDryer/app/src/main/java/com/qppd/ricedryer/ui/charts/ChartsViewModel.kt:30 | The state starts as InitialState |
| Charts.ChartsViewModel.OnReadings | source/android/RiceDryer/app/src/main/java/com/qppd/ricedryer/ui/charts/ChartsViewModel.kt:46-51 | Readings replaced, loading false, error cleared |
| Charts.ChartsViewModel.OnLoadError | source/android/RiceDryer/app/src/main/java/com/qppd/ricedryer/ui/charts/ChartsViewModel.kt:40-45 | Loading false, error = the message |
| Charts.ChartsViewModel.SetTimeRange | source/android/RiceDryer/app/src/main/java/com/qppd/ricedryer/ui/charts/ChartsViewModel.kt:56-58 | Only the time range changes |
| Charts.ChartsViewModel.GetFilteredReadings | source/android/RiceDryer/app/src/main/java/com/qppd/ricedryer/ui/charts/ChartsViewModel.kt:60-70 | Empty on empty; otherwise the window filter, a sub-multiset, all within the range |
| Validation.IsValidPassword | source/android/app/src/main/java/com/qppd/ricedryer/utils/ValidationUtils.java:12-14 | Valid iff present and length ≥ 6 |
| Validation.HasUpperCaseMeansUpperLetter | source/android/app/src/main/java/com/qppd/ricedryer/utils/ValidationUtils.java:21 | Lowercasing changes the password iff it holds an upper-case letter |
| Validation.HasLowerCaseMeansLowerLetter | source/android/app/src/main/java/com/qppd/ricedryer/utils/ValidationUtils.java:22 | Uppercasing changes the password iff it holds a lower-case letter |
| Validation.IsStrongPassword | source/android/app/src/main/java/com/qppd/ricedryer/utils/ValidationUtils.java:16-26 | A strong password is valid and has at least 8 characters |
| Validation.StrongPasswordMeaning | source/android/app/src/main/java/com/qppd/ricedryer/utils/ValidationUtils.java:16-26 | Strong iff length ≥ 8, an upper-case letter, a lower-case letter and a digit, with no line terminator |
| Validation.DigitAfterLineBreakNotStrong | source/android/app/src/main/java/com/qppd/ricedryer/utils/ValidationUtils.java:23 | "Abcdefg\n1" is not strong: the pattern cannot cross the line break |
| Validation.IsValidName | source/android/app/src/main/java/com/qppd/ricedryer/utils/ValidationUtils.java:28-30 | A valid name is present and has at least two characters |
| Validation.ValidNameMeaning | source/android/app/src/main/java/com/qppd/ricedryer/utils/ValidationUtils.java:28-30 | Valid iff two characters lie above U+0020, i.e. the trimmed length is ≥ 2 |
| Validation.IsValidPairingCode | source/android/app/src/main/java/com/qppd/ricedryer/utils/ValidationUtils.java:32-34 | Valid iff exactly six ASCII digits |
| Validation.IsValidTemperature | source/android/app/src/main/java/com/qppd/ricedryer/utils/ValidationUtils.java:36-38 | Valid iff 30 ≤ t ≤ 60 |
| Validation.TemperatureBoundsInclusive | source/android/app/src/main/java/com/qppd/ricedryer/utils/ValidationUtils.java:36-38 | Both bounds are accepted; values outside are rejected |
| Validation.PasswordStrength | source/android/app/src/main/java/com/qppd/ricedryer/utils/ValidationUtils.java:40-52 | Empty, Too Short (< 6), Weak (6-7), Strong iff isStrongPassword, Medium otherwise; each label in both directions |
| Validation.StrengthAgreesWithValidity | source/android/app/src/main/java/com/qppd/ricedryer/utils/ValidationUtils.java:40-52 | isValidPassword iff the strength is Weak, Medium or Strong |
| TimeAgo.Elapsed | source/android/app/src/main/java/com/qppd/ricedryer/utils/DateUtils.java:26-27 | now − timestamp in long arithmetic, equal to the true difference when it fits |
| TimeAgo.AgoBucket | source/android/app/src/main/java/com/qppd/ricedryer/utils/DateUtils.java:29-40 | Exactly one bucket per diff; minutes 1..59, hours 1..23, days ≥ 1, each the whole units elapsed; negative diffs are "just now" |
| TimeAgo.AgoMonotone | source/android/app/src/main/java/com/qppd/ricedryer/utils/DateUtils.java:29-40 | A larger difference never reads as more recent |
| TimeAgo.FutureIsJustNow | source/android/app/src/main/java/com/qppd/ricedryer/utils/DateUtils.java:29-30 | A future timestamp reads "Just now" |
| TimeAgo.OverflowReadsJustNow | source/android/app/src/main/java/com/qppd/ricedryer/utils/DateUtils.java:27-30 | A difference that overflows a long reads "Just now" |
| TimeAgo.IsOffline | source/android/app/src/main/java/com/qppd/ricedryer/utils/DateUtils.java:43-45 | Offline iff now − lastUpdate > 30000, strictly |
| TimeAgo.OfflineBoundary | source/android/app/src/main/java/com/qppd/ricedryer/utils/DateUtils.java:43-45 | Online at exactly 30000 ms, offline at 30001 |
| TimeAgo.ShortBucket | source/android/RiceDryer/app/src/main/java/com/qppd/ricedryer/ui/devices/DeviceListScreen.kt:335-349 | 0 gives Never before anything else; then Just now < 1 min, minutes < 1 h, hours < 1 day, otherwise a date |
| TimeAgo.ClientsAgreeBelowADay | source/android/RiceDryer/app/src/main/java/com/qppd/ricedryer/ui/devices/DeviceListScreen.kt:341-344 | Below a day the device list and DateUtils pick the same bucket and count |
| TemperatureControl.OvershootForcesOff | source/esp32/RiceDryer/TemperatureController.cpp:115-119 | Above setpoint + 2 the heater is off, whatever the output |
| TemperatureControl.BelowCutoffFollowsOutput | source/esp32/RiceDryer/TemperatureController.cpp:111-121 | Otherwise the heater is on iff output > 10 |
| TemperatureControl.NaNReadingBypassesCutoff | source/esp32/RiceDryer/TemperatureController.cpp:69-72 | A stored NaN reading never triggers the cut-off |
| TemperatureControl.TemperatureController.constructor | source/esp32/RiceDryer/TemperatureController.cpp:9-19 | Setpoint 40, output 0, temperature 0, kp 2, ki 0.1, kd 0.5; the heater is off |
| TemperatureControl.TemperatureController.SetPidParameters | source/esp32/RiceDryer/TemperatureController.cpp:44-47 | Replaces the three gains and nothing else |
| TemperatureControl.TemperatureController.SetSetpoint | source/esp32/RiceDryer/TemperatureController.cpp:60-61 | Changes only the setpoint |
| TemperatureControl.TemperatureController.Compute | source/esp32/RiceDryer/TemperatureController.cpp:67-91 | Stores the reading first; invalid (NaN, < −50, > 150) returns false with the output unchanged; otherwise the PID step decides |
| TemperatureControl.TemperatureController.GetOutput | source/esp32/RiceDryer/TemperatureController.cpp:93-95 | When the heater is on, the output is above 10 |
| TemperatureControl.TemperatureController.GetSetpoint | source/esp32/RiceDryer/TemperatureController.cpp:97-99 | When the heater is on, the temperature is at most setpoint + 2 |
| TemperatureControl.TemperatureController.Reset | source/esp32/RiceDryer/TemperatureController.cpp:124-128 | Output 0, so the heater is off; nothing else changes |
| WiFiThrottle.ElapsedSince | source/esp32/RiceDryer/WiFiManagerCustom.cpp:40-41 | The unsigned long difference, wrapping modulo 2^32 |
| WiFiThrottle.Step | source/esp32/RiceDryer/WiFiManagerCustom.cpp:38-49 | The attempt time moves only when disconnected, and only to a time at least 5000 ms later |
| WiFiThrottle.AttemptsSpacedApart | source/esp32/RiceDryer/WiFiManagerCustom.cpp:41-42 | Over any run of calls, consecutive attempts are ≥ 5000 ms apart in wrapping arithmetic |
| WiFiThrottle.ConnectedNeverAttempts | source/esp32/RiceDryer/WiFiManagerCustom.cpp:39 | While connected, nothing is attempted |
| WiFiThrottle.NoAttemptRightAfterBoot | source/esp32/RiceDryer/WiFiManagerCustom.cpp:3 | With last starting at 0, nothing is attempted in the first 5000 ms |
| WiFiThrottle.ThrottleAcrossWrap | source/esp32/RiceDryer/WiFiManagerCustom.cpp:41 | Across the 2^32 wrap, 5000 ms still suffices and 4999 ms does not |
| WiFiThrottle.WiFiManagerCustom.constructor | source/esp32/RiceDryer/WiFiManagerCustom.cpp:3-4 | lastReconnectAttempt starts at 0 |
| WiFiThrottle.WiFiManagerCustom.Reconnect | source/esp32/RiceDryer/WiFiManagerCustom.cpp:38-49 | Attempts iff disconnected and (millis − last) mod 2^32 ≥ 5000; an attempt sets last := millis, otherwise last is unchanged |

## Left out

- Network and database failures are not modelled for the Kotlin repository's reads and writes, except where a view-model receives the outcome as a parameter (`Dashboard.DashboardViewModel.Send`).
- Flows, LiveData and listeners become one delivery per call. Coroutine scheduling and the dashboard's 2-second pause are not modelled: the pause is the step between the final two statuses.
- The store's child order is an input sequence (`children`, `history`); Firebase's key ordering is not computed.
- Repository.DeviceRepository.PairDevice: the source reads the clock twice (the expiry check and pairedAt). The model uses one `now` for both.
- LegacyRepository.LegacyPair: the legacy client also reads the clock twice (the expiry check and pairedAt). The model uses one `now` for both.
- Repository.HistoryDelivery: `limitToLast(limit)` is modelled as the last `limit` children of the given order; a limit of 0, which the store rejects, is not modelled.
- `getDeviceHistory` and `getCachedReadings` default limits (100) appear only as the constant `DefaultReadingLimit`.
- `loadDeviceInfo` in the legacy client (it fills MAC and version fields and registers a listener that is never removed) is not modelled. The same holds for the body of the legacy current-reading listener.
- Legacy `deviceName` may be null in Java; the model takes a string.
- Text functions cover ASCII only: Kotlin `isDigit`, `isWhitespace`/`isBlank` and `uppercase`, and Java `toLowerCase`/`toUpperCase`, also treat other Unicode letters, digits and spaces.
- Floats and doubles are reals: rounding, float narrowing of the status fields and NaN (except in the controller's guard) are not modelled.
- Room's ordering of rows with equal sort keys is the model's stable order; SQLite leaves it unspecified.
- The AUTOINCREMENT limit of 2^63 − 1 and Room's behaviour beyond it are not modelled.
- The date formatting of `SimpleDateFormat` (locale, time zone) is not modelled: the device list's date label is `DateOf(timestamp)`.
- Charts.ChartsViewModel.GetFilteredReadings: `now - range` is computed without long wrap-around, as the clock is far from the long limits.
- TemperatureControl.TemperatureController.Compute: the PID library's computation, its sample time and its modes (`begin`, `setMode`, the integral reset inside `reset`) are a parameter; serial logging is left out.
- The Wi-Fi portal (`begin`, `reset`, `getLocalIP`) and the WiFi driver calls are hardware I/O and are left out.
- `isValidEmail` uses Android's email pattern and is not modelled.
