# Astro CLI: a verified model

This project models the parts of the Astro CLI whose correctness is decided by code rather than by a server: the
signing-secret protocol of standalone mode and the environment it builds, the order of Astro Runtime versions and the
selectors that rest on it, the migration of the home config file, the Airflow REST client under retries, the pinning
of a project's postgres version, and five smaller algorithms (the dependency report, template extraction, query
selection by platform version, settings export, image-tag parsing). Each module states what the Go code promises and
proves it for all inputs, all visiting orders of Go's maps and, for the protocols, all interleavings and crash points.

Code that updates things step by step is a class or a method with loops, proved against a function or a relation on
values; what the code promises is then proved of that function. Protocols are state machines over single system calls
or docker calls, and their invariants are lifted to whole runs. Where a promise turns out to hold only sometimes, the
lemma whose name ends in `Exactly` (or `QuietIsExact`) gives the condition, in both directions.

| module | models |
|---|---|
| `Strings` | prefixes, digit runs, decimal values, byte order, `strings.TrimSpace`, `strconv.Itoa` |
| `SemVer` | `semver.IsValid` and `semver.Compare`, with the precedence of section 11 of Semantic Versioning 2.0.0 beside them |
| `RuntimeVersions`, `ImageTags`, `TagSelection` | `airflow_versions/` |
| `SigningSecret`, `StandaloneEnv`, `Standalone` | `airflow/standalone.go` |
| `HomeConfig`, `ConfigMigration`, `ShippedSettings` | `config/config.go`, `config/types.go` |
| `AirflowClient` | `airflow-client/airflow-client.go` |
| `PostgresPin` | `airflow/postgres_version.go` and the postgres steps of `Start` and `Kill` in `airflow/docker.go` |
| `DependencyReport` | the version-compare report of `airflow/docker.go` |
| `TemplateExtract` | `airflow/runtime_templates.go` |
| `QueryVersions` | `houston/utils.go`, `houston/decorator.go` |
| `SettingsExport` | the merge loops of `settings/settings.go` |

## What the code does not quite promise

- Starts agree on one secret exactly when no call fails and the file either keeps a secret already or is absent on a
  file system with hard links; both `os.Rename` branches overwrite (`SigningSecret.AgreementExactly`).
- A foreground start keeps a secret without looking for a running instance, so over an older CLI's instance it breaks
  later commands (`Standalone.ForegroundIsSafeExactly`). A secret that could not be written is lost to the next
  handler (`Standalone.UnkeptSecretIsLostExactly`). `Standalone.SignsThroughoutExactly` says which runs are safe.
- Only one leading `v` is stripped, so prepending one to a valid version that has one already changes its rank
  (`RuntimeVersions.LeadingVIsIgnoredExactly`). The Airflow major version is not insensitive to a leading `v` at all
  (`RuntimeVersions.AirflowMajorIgnoresLeadingVExactly`).
- An agent version `base`, or one that ends in `-base`, does not survive its own tag
  (`ImageTags.ParseSpellExactly`).
- A known setting that the file sets to a subtree without leaves means "" before the migration and its default after
  it (`HomeConfig.MigrationKeepsMeaning`).
- A start that reads the data directory while a postgres of another version initialises it, or that cannot read it,
  may bring the wrong version up (`PostgresPin.QuietIsExact`, `PostgresPin.UnquietIsReachable`).
- A kill that cannot remove a stale probe completes, and leaves the project pinned to its old version
  (`PostgresPin.KillFreesTheVolumeExactly`).
- A downgrade is reported as an upgrade when a lower number grew while a higher one shrank
  (`DependencyReport.KindIsUpgradeExactly`).
- Build metadata keeps a pre-release from being dropped (`QueryVersions.PrereleaseIsDroppedExactly`).
- An export removes only the first stored entry of an id, so it does not repair duplicates
  (`SettingsExport.UniqueAfterExactly`).

## Model

| member | source | states |
|---|---|---|
| SigningSecret.SecretIsWhole | airflow/standalone.go:959-998 | For any number of starts, any interleaving, any crashes and failed calls and any file system, the secret file is only ever what it was before or the whole secret of one start, never partial. |
| SigningSecret.StartsAgree | airflow/standalone.go:949-998 | When nothing fails and the file keeps a secret, or is absent with hard links, every finished start holds what the file keeps in every run, and the file never changes once it is there. |
| SigningSecret.AgreementExactly | airflow/standalone.go:982-997 | For two starts with different secrets, agreement in every run is equivalent to that guard; outside it some run ends with a finished start that holds another secret. |
| SigningSecret.StepKeepsAgreement | airflow/standalone.go:959-998 | The inductive invariant: one call of one start keeps every start's position, temporary file and held secret consistent with the file, and never replaces a file that is there. |
| SigningSecret.OverwriteDisagrees | airflow/standalone.go:985-988 | From an empty file, or without hard links, a run exists in which one start finishes and another then renames over its secret. |
| SigningSecret.FaultDisagrees | airflow/standalone.go:967-975 | With failing calls, a start that cannot keep its secret finishes with one that the file does not hold. |
| SigningSecret.FinishedHoldsASecret | airflow/standalone.go:959-998 | Whatever fails or crashes and however the starts interleave, a start that finishes holds a secret: its own, or one the file kept at some point of the run; never none. |
| SigningSecret.AdoptsTheLastRead | airflow/standalone.go:972-997 | A start that got as far as its temporary file looks into the secret file again before it finishes, whatever failed, and adopts what it finds. |
| SigningSecret.NoTempIsLeft | airflow/standalone.go:977-977 | A start that finishes leaves no temporary file, unless removing it was what failed. |
| SigningSecret.KeptIsTrimmed | airflow/standalone.go:911-918 | White space around a kept secret does not count, and a file of white space keeps none. |
| SigningSecret.StartIsWaitFree | airflow/standalone.go:959-998 | No start waits for another: it makes at most nine calls in any run, and has finished or crashed once it has made them all. |
| Standalone.LoneStartPersistsOrNot | airflow/standalone.go:959-998 | The protocol refines to its simple form: whichever calls of a lone start fail, as long as its reads work, file and handler end as the sequential description says, the secret being kept if it reached the file. |
| Standalone.LoneStartPersists | airflow/standalone.go:959-998 | When none fails the secret reaches the file, with hard links or without. |
| Standalone.ConsistentMeans | airflow/standalone.go:920-938 | The invariant is no more than what matters: environments built now, by this handler or by a new one, sign as the running instance does. |
| Standalone.StepIsSoundExactly | airflow/standalone.go:312-321 | From a consistent state a start, foreground or background, a command, a stop or a kill leaves one exactly when it meets its guard: a start over an instance, or one whose secret is not kept, must find a kept secret or generate the older CLI's. |
| Standalone.RunKeepsConsistent | airflow/standalone.go:920-938 | Over any run of steps that meet their guards, foreground starts included, a running instance's secret stays the one kept, or the older CLI's if none is, and the handler has settled on no other. |
| Standalone.SignsThroughoutExactly | airflow/standalone.go:920-938 | Over any run, every environment built while an instance is up signs with that instance's secret at every point of the run exactly when every step meets its guard. |
| Standalone.EnvironmentsSignAsTheInstance | airflow/standalone.go:920-938 | From nothing running, or from an older CLI's instance without a kept secret, a run that meets the guard ends with environments that sign with the running instance's secret. |
| Standalone.ForegroundIsSafeExactly | airflow/standalone.go:312-321 | A foreground start keeps that consistency exactly when no instance is up, a secret is kept already, or the new secret is the older CLI's, whether or not the new one can be written. |
| Standalone.UnkeptSecretIsLostExactly | airflow/standalone.go:967-975 | When a start's secret cannot be kept, the next handler signs like its instance exactly when that secret happens to be the older CLI's. |
| Standalone.Handler.SigningSecretForEnv | airflow/standalone.go:930-938 | The session's secret, else the kept one, else the older CLI's; it is remembered, and nothing else changes. |
| Standalone.Handler.PersistSigningSecret | airflow/standalone.go:959-998 | A kept secret is adopted; otherwise the generated one is held and, if it can be written, kept, and then handler and file agree. |
| Standalone.Handler.BuildEnv | airflow/standalone.go:698-808 | Every key comes from the highest layer that has it: standalone settings, last `.env` line, inherited entries; the signing keys hold the handler's secret, and with no proxy set anywhere both names of the workaround are there once. |
| Standalone.Handler.Command | airflow/standalone.go:1233-1239 | From a consistent state, a command's environment signs with the running instance's secret, and the state stays consistent. |
| Standalone.Handler.StartBackground | airflow/standalone.go:312-321 | A start changes nothing over a running instance, wherever it stops it leaves the state the step describes, and consistency is kept when its secret is. |
| Standalone.Handler.Stop | airflow/standalone.go:1016-1044 | Only the instance goes, and only when the process group could be stopped. |
| Standalone.Handler.Kill | airflow/standalone.go:1065-1089 | A stop that fails leaves the instance and its secret alone; otherwise both go together. |
| StandaloneEnv.Merge | airflow/standalone.go:792-805 | The inherited entries that are not overridden, in their order, followed by every override exactly once in some order. |
| StandaloneEnv.LoadDotEnv | airflow/standalone.go:713-719 | Each key of the `.env` lines has the value of its last line, split at the first `=`; no other key is there. |
| StandaloneEnv.MergedGivesEachKey | airflow/standalone.go:792-805 | In any merged environment an overridden key appears once, with its override, and any other key has its inherited entries in order. |
| StandaloneEnv.LayerOfKey | airflow/standalone.go:706-805 | The merge of the layers gives each key the entry of the highest layer that has it. |
| StandaloneEnv.SigningKeysAreSet | airflow/standalone.go:743-778 | For both Airflow majors every key Airflow signs with is set to the signing secret, and neither the proxy workaround nor another setting overwrites it. |
| StandaloneEnv.SigningKeysAre | airflow/standalone.go:743-778 | Those keys are the API secret and the JWT secret on Airflow 3, and the webserver secret otherwise. |
| StandaloneEnv.NoProxyExactly | airflow/standalone.go:780-790 | The proxy workaround is in the environment exactly when no proxy variable is set in the `.env` file or outside; otherwise the user's value or the inherited one stays. |
| StandaloneEnv.PortIsSetExactly | airflow/standalone.go:742-765 | The server of the running major version is given its port exactly when that is not the default, and gunicorn is limited to one worker exactly on Airflow 2 off macOS. |
| StandaloneEnv.CriticalSettingsHold | airflow/standalone.go:721-737 | For either major version the project's programs come first on the path, an unset module path leaves no empty element, and home, DAGs and examples are the project's. |
| StandaloneEnv.SplitMeans | airflow/standalone.go:715-717 | An entry is its key and value around the first `=`, and only a text without `=` is no entry. |
| SemVer.CompareIsPrecedence | airflow_versions/runtime_versions.go:94-129 | The library's comparison of strings equals section 11's precedence of the versions they denote, on all pairs of strings, invalid ones level and lowest. |
| SemVer.OneIdent | airflow_versions/runtime_versions.go:82-88 | What one pre-release identifier may be, character by character (section 9). |
| SemVer.MoreIdents | airflow_versions/runtime_versions.go:82-88 | Dot-separated identifiers are valid when each is, and are compared one after the other. |
| SemVer.IdentOrderMeans | airflow_versions/runtime_versions.go:90-93 | Numerals compare by value, are below other identifiers, and those compare by the first byte that differs, a prefix being lower (section 11.4). |
| SemVer.IdentsOrderMeans | airflow_versions/runtime_versions.go:90-93 | The first identifier that differs decides, and of two lists that agree the shorter is lower. |
| SemVer.CompareIsTotalPreorder | airflow_versions/runtime_versions.go:90-93 | The library's comparison is a total preorder on all strings. |
| SemVer.ParseTriple | airflow_versions/runtime_versions.go:82-88 | A full triple is valid exactly when its numerals have no leading zeros and its suffix is well formed, and parses to those parts. |
| SemVer.ShorthandsAreZeroFilled | airflow_versions/runtime_versions.go:82-88 | `vX` and `vX.Y` are valid exactly when the triples filled up with zeros are, and denote those. |
| SemVer.BuildMetadataIsIgnored | airflow_versions/runtime_versions.go:90-93 | Build metadata changes neither validity nor precedence (section 10). |
| RuntimeVersions.SpellingIsParsed | airflow_versions/runtime_versions.go:18-57 | Every spelling of three numbers and a one-line pre-release, with either separator, is read back as those four groups. |
| RuntimeVersions.ParsedIsSpelling | airflow_versions/runtime_versions.go:18-57 | Conversely, whatever the new-format pattern accepts is a spelling of the groups it yields. |
| RuntimeVersions.CompareIsRankOrder | airflow_versions/runtime_versions.go:94-129 | The comparison is the order of ranks: invalid below old-format below new-format, and precedence within a band. |
| RuntimeVersions.CompareIsTotalPreorder | airflow_versions/runtime_versions.go:90-129 | On all strings it is reflexive, antisymmetric in sign, transitive and total, and level versions compare alike with everything. |
| RuntimeVersions.BandsAreOrdered | airflow_versions/runtime_versions.go:99-125 | Every invalid string is below every valid one, and every valid old-format version below every valid new-format one, from both sides. |
| RuntimeVersions.LeadingVIsIgnoredExactly | airflow_versions/runtime_versions.go:32-35 | A prepended `v` makes no difference against any version exactly when the string is not a valid version that starts with `v`. |
| RuntimeVersions.AirflowMajorIgnoresLeadingVExactly | airflow_versions/runtime_versions.go:143-152 | A prepended `v` keeps the Airflow major version exactly when the string is neither a valid new-format version nor a SemVer string with its `v`. |
| RuntimeVersions.AirflowMajorIs | airflow_versions/runtime_versions.go:131-152 | The Airflow major version is X of a valid `X.Y-Z`, 2 for a valid old-format version with or without its `v`, and "" otherwise. |
| RuntimeVersions.ValidExactly | airflow_versions/runtime_versions.go:82-88 | Both formats are valid exactly when their numbers have no leading zeros and their pre-release is well formed. |
| RuntimeVersions.BothFormatsCompare | airflow_versions/runtime_versions.go:94-129 | Within each format versions compare by X, then Y, then Z, then release above pre-release, then identifiers; across them the new one is above whatever the numbers. |
| RuntimeVersions.OneIdentifierDecides | airflow_versions/runtime_versions.go:127-128 | Versions that differ in one pre-release identifier compare by it: by value, numerals below others, and byte by byte. |
| RuntimeVersions.LettersCompareByByte | airflow_versions/runtime_versions.go:127-128 | Of two pre-releases in letters, such as `alpha` and `beta`, the first letter that differs decides. |
| RuntimeVersions.MoreIdentifiersDecide | airflow_versions/runtime_versions.go:127-128 | A further identifier makes a pre-release higher, and a common first one does not count. |
| RuntimeVersions.SpellingParses | airflow_versions/runtime_versions.go:59-88 | A new-format version is valid exactly when its three numbers have no leading zeros and its pre-release is well formed. |
| RuntimeVersions.NewFormatOrderIsNumeric | airflow_versions/runtime_versions.go:127-128 | Valid new-format versions compare by X, Y, Z as numbers and then by pre-release precedence, whichever separators they use. |
| RuntimeVersions.ReleaseAbovePrerelease | airflow_versions/runtime_versions.go:59-80 | A release is above every pre-release of it. |
| RuntimeVersions.SeparatorIsIrrelevant | airflow_versions/runtime_versions.go:20-22 | `X.Y-Z-P` and `X.Y-Z.P` are level, valid together, and compare alike with everything. |
| ImageTags.ParseSpellExactly | airflow_versions/airflow_versions.go:23-78 | For every well-formed tuple, parsing the tag spelled from it gives it back exactly when it is a base image or its agent is not `base` and does not end in `-base`. |
| ImageTags.ParsedTagIsSpelling | airflow_versions/airflow_versions.go:23-78 | Conversely, whatever is accepted is the spelling of a tuple, the one it yields but for an agent that is itself `base` or `-base`. |
| ImageTags.IsBetterMeans | airflow_versions/airflow_versions.go:80-104 | An image is better by its runtime, on a tie by its Python version, on a tie by its agent, and last as Debian over UBI; any image is better than none. |
| ImageTags.TagOrderIsTotalPreorder | airflow_versions/airflow_versions.go:80-104 | Runtime, then Python, then agent, then Debian over UBI is a total preorder on tags. |
| ImageTags.IsBetterIsStrictWeakOrder | airflow_versions/airflow_versions.go:82-95 | "Better" is irreflexive, asymmetric, transitive and negatively transitive, with no image at the bottom. |
| TagSelection.GetAstroRuntimeTag | airflow_versions/airflow_versions.go:132-180 | For every visiting order: a stable, unyanked version of the wanted Airflow that none such exceeds, or the right error exactly when there is none. |
| TagSelection.LatestIsUniqueUpToLevel | airflow_versions/airflow_versions.go:170-175 | Two picks from one set, made in any orders, compare equal. |
| TagSelection.PickLatestMatchingRuntimeVersion | airflow_versions/airflow_versions.go:304-320 | For every visiting order: an unyanked version that extends the floating tag by `-` or `.` and that none exceeds, "" exactly when there is none. |
| TagSelection.FloatingTagKeepsItsMinor | airflow_versions/airflow_versions.go:285-320 | A floating `X.Y` never resolves to a new-format version of another major and minor. |
| TagSelection.BetterOf | airflow_versions/airflow_versions.go:207-230 | Over one client's tags, the running best stays usable, is never beaten by a tag seen so far, and comes from the start or the tags. |
| TagSelection.GetAstroAgentTag | airflow_versions/airflow_versions.go:183-244 | For every visiting order: a stable, parseable, non-base tag not above the requested runtime that no such tag beats, or the right error exactly when there is none. |
| HomeConfig.DeleteNestedLeaves | config/config.go:228-245 | Deleting a path removes exactly the leaves at and below it. |
| HomeConfig.DeleteNestedStaysFull | config/config.go:228-245 | A deletion leaves no empty parent behind. |
| HomeConfig.LeavesDetermine | config/config.go:197-209 | Settings without empty subtrees are determined by their leaves. |
| HomeConfig.MigratedIsUnique | config/config.go:192-209 | There is one migrated file, so the order in which the settings map is visited does not show. |
| HomeConfig.MigrationKeepsMeaning | config/config.go:182-191 | Every known setting means after the migration what it meant before, a superseded default counting as the current one, exactly unless the file sets it to a subtree without leaves and its default is not empty. |
| HomeConfig.HomeStringMeans | config/types.go:148-153 | A leaf reads as its text, a subtree as "", and what is not set as the default. |
| HomeConfig.ProjectMeaningIsKept | config/types.go:107-113 | For every project, home file and known setting: a project sees its own setting, or else what the setting is to mean, exactly when it sets it itself or the home file does not lose it to a subtree without leaves. |
| ConfigMigration.SettingsMap.DeletePath | config/config.go:228-245 | In place, on nested maps none of which is shared, a path and every parent left empty are removed; the maps elsewhere in the tree are untouched. |
| ConfigMigration.AllSettings | config/config.go:197-197 | The settings are rebuilt from their leaves, in maps of their own, so the loop never changes what it reads. |
| ConfigMigration.RemoveFrozenDefaults | config/config.go:197-208 | For every visiting order, exactly the known settings that equal a default they ship or shipped are gone; every other leaf is left. |
| ConfigMigration.Store.MigrateHomeConfig | config/config.go:192-226 | A file without a version, or stamped 0 or no number, becomes the migrated one, stamped 1; one stamped 1 or more, and one that cannot be written, stays as it is. |
| ConfigMigration.Store.MigrateTwice | config/config.go:192-226 | However its own write and re-read go, a second run changes neither store nor file once the store is stamped, and never the file that the first one wrote, even if that could not be read again. |
| ShippedSettings.ShippedIsPrefixFree | config/config.go:64-118 | The table of settings the CLI ships meets the premises of these theorems: no setting is a prefix of another. |
| ShippedSettings.PostgresTagFollowsTheDefault | config/config.go:175-180 | A file that carries the postgres tag of an older CLI or today's follows the default from its migration on, and any other tag is the user's. |
| AirflowClient.Server.Handle | airflow-client/airflow-client.go:282-334 | The server assumed: it may apply a write and still answer with an error or not at all, never answers success without applying, and reports a conflict only for an object it has. |
| AirflowClient.DoWrite | airflow-client/airflow-client.go:252-334 | A write is sent again only after a 429, 502 or 503 and at most three times; it succeeds exactly on a 2xx with the expected body and conflicts exactly on a 409; the objects end as they were or as written once, and success means written. |
| AirflowClient.Update | airflow-client/airflow-client.go:127-146 | Success means the stored object is as wanted; updating what is not there fails and creates nothing. |
| AirflowClient.Create | airflow-client/airflow-client.go:107-125 | Success means the object is stored as wanted, created or reconciled, and it is reconciled after a conflict and only then; whatever the outcome all others are untouched, with at most 4 POSTs and 4 PATCHes. |
| AirflowClient.WrittenMeans | airflow-client/airflow-client.go:225-250 | "As wanted" is equality, and for a default pool that existed at least its slots and include_deferred; no other object changes. |
| AirflowClient.WrittenOnce | airflow-client/airflow-client.go:252-280 | A write that was applied and then retried leaves what one write leaves. |
| AirflowClient.IdsAreKinds | airflow-client/airflow-client.go:127-250 | Two objects have one id exactly when they are of one kind and of one name. |
| AirflowClient.FetchAllPages | airflow-client/airflow-client.go:74-97 | On a fixed list, exactly that list in order when all of max(1, ceil(n/100)) requests with a reported total, floor(n/100)+1 without, are answered; otherwise nothing, after the first that is not. |
| PostgresPin.MajorVersionMeans | airflow/postgres_version.go:248-264 | The major version is the positive number in range that the trimmed text starts with, and there is none exactly when it starts with no such number. |
| PostgresPin.MajorVersionOfTag | airflow/postgres_version.go:248-264 | Every tag that starts with a version, such as `12.6` or `15-alpine`, the PG_VERSION file and the tag a project is pinned to are read as that version. |
| PostgresPin.StepsChangeOnly | airflow/postgres_version.go:44-92 | A stop, a tag change or an interruption leaves volume and probes alone, and only a start, a stop and a shutdown change what is up. |
| PostgresPin.NeverBroughtUpOnAnother | airflow/postgres_version.go:44-92 | Over any quiet run of starts, interrupted starts and kills, failing docker calls, tag changes and stops, postgres is never brought up on a data directory another major version wrote. |
| PostgresPin.OnlyKillChangesMajor | airflow/postgres_version.go:47-53 | Until the second half of a kill a written data directory keeps its major version, however often the tag changes. |
| PostgresPin.KillFreesTheVolumeExactly | airflow/docker.go:609-615 | A completed kill frees the volume exactly when no probe survives its sweep, or there was none to free; and the next start follows whatever version is then configured exactly when no probe survives, or no written directory was there. |
| PostgresPin.StaleProbeKeepsTheVolume | airflow/docker.go:609-611 | From a new project a quiet run leads through an interrupted start and a completed kill to a project that still holds its old directory, pinned by one probe. |
| PostgresPin.StepsAreKill | airflow/docker.go:593-624 | From any state with nothing at work the two halves of a kill do what `Docker.Kill` does, whichever probes survive; interrupted between them, the server and the volume are left. |
| PostgresPin.MisfitComesUp | airflow/postgres_version.go:81-86 | Once a start has settled on a version that does not fit the directory, quiet steps bring it up on that directory. |
| PostgresPin.UnquietIsReachable | airflow/postgres_version.go:81-86 | Both failures are reached from a new project by quiet steps and end with postgres 15 on a directory of 12: a version read while 12 initialises the directory, and one that could not be read. |
| PostgresPin.QuietIsExact | airflow/postgres_version.go:81-86 | After any step the project stays whole in every quiet continuation exactly when the step was quiet: a version read must not be one just being initialised otherwise, and one not read must not matter. |
| PostgresPin.Docker.RemoveStaleProbes | airflow/postgres_version.go:202-219 | All listed probes but the stuck ones are removed, and none if they cannot be listed. |
| PostgresPin.Docker.ReadVolumePGVersion | airflow/postgres_version.go:132-188 | The major version that wrote the volume, 0 for an empty one or a call that fails; exactly the probes whose removal failed are left, so none when all calls work. |
| PostgresPin.Docker.ResolvePostgresTag | airflow/postgres_version.go:54-92 | For the official image with volumes and a tag such as `15-alpine`, the version that wrote the directory whenever it is another; an error exactly when the lookup of a checked start fails; unchecked starts touch nothing. |
| PostgresPin.Docker.Start | airflow/docker.go:338-373 | For such settings a directory whose version is read is started with that version, any other with the tag's; unchecked starts use the configured tag and a failed lookup changes nothing. |
| PostgresPin.Docker.Kill | airflow/docker.go:593-624 | Probes go before the volume, which goes exactly when none is left; a failed shutdown leaves server and volume. |
| PostgresPin.StepsAreStart | airflow/docker.go:338-373 | Whichever docker calls fail, the steps of an uninterrupted start do to the project what `Docker.Start` does, and break it exactly when a version it holds is not the one brought up. |
| DependencyReport.KindIsUpgradeExactly | airflow/docker.go:1325-1346 | Every upgrade gets the kind of the highest number that changed; a change that gets a kind is an upgrade exactly when the major grew, or stayed and the minor did not shrink. |
| DependencyReport.CheckVersionChange | airflow/docker.go:1325-1346 | The kind of a change, unknown for an invalid version, and an error exactly for a version with another error that is reached. |
| DependencyReport.ChangeMeans | airflow/docker.go:1230-1304 | Unchanged packages add nothing, an update is filed under the kind of its two versions, and only two versions that differ can stop the report. |
| DependencyReport.OneEntryAtMost | airflow/docker.go:1230-1304 | One package adds one entry to one of the thirteen lists, or none to any. |
| DependencyReport.ReportIsPartition | airflow/docker.go:1230-1304 | Over the thirteen lists there are exactly as many new entries as packages whose version changed: each changed package adds one entry to one list, unchanged ones none. |
| DependencyReport.EntriesComeFromTheFiles | airflow/docker.go:1153-1304 | A removed entry is a line of the first file and an added one a line of the second, word for word, and the other file does not give the package a version; an update stands for one line of each. Providers stay in their own six lists and the first list is Airflow's. |
| DependencyReport.SortedIsUnique | airflow/docker.go:1189-1201 | A list has one sorted arrangement, so it does not matter how it is sorted. |
| DependencyReport.SameEntriesInAnyOrder | airflow/docker.go:1230-1232 | Two visiting orders of the map give every list the same entries. |
| DependencyReport.SameListsInAnyOrder | airflow/docker.go:1184-1216 | From empty lists every list is the same once sorted, the unsorted Airflow one included. |
| DependencyReport.ReadVersions | airflow/docker.go:1153-1183 | The map holds exactly the packages some two-part line of either file mentions, with the last version each file gives. |
| DependencyReport.LineIsParsedExactly | airflow/docker.go:1158-1165 | `pkg==ver` is read as that package and version exactly when neither part adds another `==` to it. |
| DependencyReport.TitlesAreOfCategories | airflow/docker.go:114-128 | Each list is written under the title of what it holds. |
| DependencyReport.WriteToCompareFile | airflow/docker.go:1306-1323 | A list is appended under its title, one entry a line and an empty line after it, and nothing is for an empty one. |
| DependencyReport.Report.Visit | airflow/docker.go:1232-1272 | One package's entry goes to its list and nothing else changes; the visit stops the report exactly when the change does. |
| DependencyReport.Report.IteratePkgMap | airflow/docker.go:1230-1304 | Whatever the lists held, each gains exactly its packages' entries in visiting order; the loop fails exactly when some version's error is not that it is invalid. |
| DependencyReport.Report.CreateVersionTestFile | airflow/docker.go:1131-1228 | From empty lists the lists and the written report are a function of the two files; from others each list gains the entries of a first report. |
| TemplateExtract.JoinWalks | airflow/runtime_templates.go:140-140 | Joining a relative path and cleaning it is walking its elements on from the destination. |
| TemplateExtract.RelDecides | airflow/runtime_templates.go:141-144 | The textual test on the relative path refuses exactly the places that are not at or beneath the base. |
| TemplateExtract.AcceptedExactlyWhenContained | airflow/runtime_templates.go:133-146 | For an absolute destination a path is accepted exactly when it is relative and its cleaned join lies at or beneath the destination, and what is accepted is that place. |
| TemplateExtract.StepMeans | airflow/runtime_templates.go:140-140 | An ordinary element goes down and `..` after it comes back; at the root `..` stays, and `.` and empty elements always do. |
| TemplateExtract.CleanOfPlace | airflow/runtime_templates.go:140-140 | An absolute path of ordinary elements names exactly those elements. |
| TemplateExtract.ClimbingIsAcceptedExactly | airflow/runtime_templates.go:136-146 | A path that climbs some levels and goes down again is accepted exactly when it comes back to the destination; one that does not climb always is, below the destination. |
| TemplateExtract.EntryOfTemplate | airflow/runtime_templates.go:172-186 | An entry below the template directory is known by its path there. |
| TemplateExtract.EntryOutsideTemplate | airflow/runtime_templates.go:180-184 | An entry whose name nowhere has the template directory is skipped. |
| TemplateExtract.HandleEntry | airflow/runtime_templates.go:167-197 | One turn of the loop: the base directory is that of the first header with a slash, and the entry is skipped, refused or handed on accordingly. |
| TemplateExtract.ExtractTarGz | airflow/runtime_templates.go:148-229 | The loop stops exactly at the first entry that is refused or whose write fails, with that error, or at the end; every write before it lands at or beneath the destination and is a directory or a regular file. |
| QueryVersions.PrereleaseIsDroppedExactly | houston/decorator.go:124-134 | For every string, with or without its `v`, valid or not: what is compared is the version without its pre-release exactly when there is none or the string has no build metadata. |
| QueryVersions.OrderIsPrecedence | houston/utils.go:23-27 | Listed versions are ordered by precedence without their pre-releases. |
| QueryVersions.LowerIsFirst | houston/utils.go:23-27 | The version with the lower major, then minor, then patch number comes first, with or without a `v` and whatever the pre-releases. |
| QueryVersions.ChoiceIsUnique | houston/utils.go:33-47 | For distinct listed versions there is one right answer, so neither list order nor earlier calls show. |
| QueryVersions.ChoiceIsMonotone | houston/utils.go:33-47 | Above the least listed version a newer platform never gets an older query. |
| QueryVersions.AscendingIsSorted | houston/utils.go:34-34 | Comparing neighbours is enough to find a list sorted. |
| QueryVersions.QueryList.CheckSorted | houston/utils.go:34-34 | The downward scan of neighbours answers whether the list is sorted. |
| QueryVersions.QueryList.Swap | houston/utils.go:29-31 | The two entries are exchanged in place, and no other moves. |
| QueryVersions.QueryList.Sort | houston/utils.go:19-36 | In place, by exchanges alone, the list becomes a sorted permutation of itself; no more is promised, as the library's sort is not stable. |
| QueryVersions.QueryList.GreatestLowerBound | houston/utils.go:33-47 | The list is permuted into order, or left alone if in order; the query is that of the greatest version at or below `v`, of the highest version when none is. |
| QueryVersions.Search | houston/utils.go:37-46 | The downward search on a sorted list finds that choice. |
| SettingsExport.MergeAllIs | settings/settings.go:620-651 | With unique ids on both sides the result is the entries that were not exported, in order, then the exported ones, in order. |
| SettingsExport.MergeAllCounts | settings/settings.go:629-650 | However often ids were stored or exported: an exported id is stored at least once afterwards, and no other count changes. |
| SettingsExport.ConvertedMeans | settings/settings.go:621-648 | Every field of a listed connection is taken over, without a URI; an absent port is 0, and a number is read as itself. |
| SettingsExport.AtoiMeans | settings/settings.go:622-628 | A port out of range is the nearest number, and what is no number is 0. |
| SettingsExport.UniqueAfterExactly | settings/settings.go:629-636 | Stored ids are unique after an export exactly when they were before. |
| SettingsExport.ExportedHoldsOnce | settings/settings.go:620-651 | Each exported id holds its exported value, exactly once. |
| SettingsExport.SecondExportIsIdentity | settings/settings.go:620-651 | A second identical export changes nothing. |
| SettingsExport.OrderShowsOnlyInOrder | settings/settings.go:673-686 | Another export order gives the same entries, and the untouched ones in the same order. |
| SettingsExport.MapEntriesAreUnique | settings/settings.go:673-686 | A map exports each of its keys once, so these laws hold for every visiting order of the variables. |
| SettingsExport.RemoveExisting | settings/settings.go:629-636 | The search loop removes the first entry of an id, and nothing when there is none. |
| SettingsExport.Settings.ExportConnections | settings/settings.go:602-651 | The stored connections become the merge with the converted ones, the port read as a number; variables are untouched. |
| SettingsExport.Settings.ExportVariables | settings/settings.go:662-686 | For every visiting order of the map the stored variables become the merge with its entries; connections are untouched. |

## Left out

- SemVer: golang.org/x/mod/semver is not part of the repository; it is written from sections 9, 10 and 11 of Semantic
  Versioning 2.0.0 and the shorthands `vX` and `vX.Y`, with its comparison by length and bytes.
- Regular expressions are written as deterministic parsers of the same language; strings are sequences of characters,
  without UTF-8 decoding.
- UpdateKind: what Masterminds' `semver.NewVersion` makes of a version string is a parameter of the report.
- MigrationKeepsMeaning: viper reads the file as a tree of string leaves and lowers no keys; dotted keys, lists,
  environment overrides and the encoding of the file are not modelled, and `config_version` is read as decimal text.
- QueryList.Sort: the insertion by exchanges that the library's `sort.Sort` does on short lists; its other algorithms
  for longer lists are not modelled, and no caller relies on more than a sorted permutation. `sort.Strings` is the
  sorted list, which is unique.
- ExportConnections: appending to a Go slice shares its array; the lists are values here, so that aliasing is not
  captured. The listing of connections is taken as parsed.
- Update: ids go into the request path unescaped; the server is taken to route each request to the object it names.
  Marshalling, authorisation, backoff and the retries of reads are left out.
- FetchAllPages: the list does not change between two requests; whether a request is answered depends on its place in
  the sequence only.
- SignsThroughoutExactly: starts on one project follow one another here; starts at the same time are the subject of
  `SigningSecret`. A foreground start is modelled up to the secret it keeps; the Airflow it then runs is not counted
  as an instance.
- BuildEnv: the lines of the env file, and whether a proxy is set outside the overrides, are inputs; the older CLI's
  secret is a constant of the project.
- NeverBroughtUpOnAnother: one CLI works on a project at a time; the repository is the default one, the tag parses,
  volumes are on and the compose file is generated. Starts outside these settings are in `Docker.Start` only. A kill
  whose shutdown fails half-way is an interrupted one.
- ReadVolumePGVersion: the choice of the probe's image, and the lookup of the volume by label or name, are left out;
  each is one call that works or fails.
- ExtractTarGz: paths are slash-separated and purely lexical; a symbolic link already below the destination is not
  seen, as it is not in the original.
- CreateVersionTestFile: opening and creating the files, and a scanner stopped by an overlong line.
- `ExportPools`, `AppendEnvironmentConnections`, `getAstronomerCertifiedTag`, `AirflowVersion.Compare`,
  `VerifyVersionMatch` and `readSingleFileFromTar`: easy beside the above, or without a property their code keeps.
- The context store, `CreateConfig` and the locking of `saveConfig`: their behaviour rests on viper's override layer
  and on a truncation outside the lock.
- Docker, compose, uv, process groups and HTTP themselves, login, deploys, telemetry, prompts, printing and command
  wiring.
