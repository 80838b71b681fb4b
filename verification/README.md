# Snek, modelled in Dafny

Snek is a Discord chat bot. Its commands are *scales*: Lua scripts, one
per file, in a `scales` directory. A message that starts with the bot's
*indicator* (read from a flat `key=value` config file) is a command.
Its first word is the command word:

- `scale` or `scales` reaches the built-in verbs: `help`, `cat`, `add`,
  `remove` and `list`. These verbs manage the scripts.
- Any other word runs the scripts whose name is that word. The last
  one's answer is sent back.

Before every message the bot brings its state up to date (the "lazy
pre-update"):
- It re-reads the indicator when the config file's write time has
  changed.
- It walks its scales from the back. It drops a scale whose file is gone
  and reloads one whose text has changed.
- It loads a scale for every file in the directory whose name it does
  not know yet.

This project models that core as pure functions over immutable values.
It proves what those functions promise.

| module | file | what it models |
|---|---|---|
| `Outcomes` | outcomes.dfy | `Option`; `Outcome` (a value or the exception that escaped); `Partial` (a state left behind by an exception) |
| `Text` | text.dfy | the .NET string operations used: Trim, ToLowerInvariant (ASCII), Split, IndexOf, StartsWith, Contains, Int32.ToString |
| `FilePaths` | file_paths.dfy | Path.GetFileName, Path.GetFileNameWithoutExtension, Path.Combine on `/`-separated paths |
| `PseudoIni` | pseudo_ini.dfy | the config store: Snapshot, Compose, KeyEquals, WriteItem, ReadItem, and the reserved key characters |
| `PseudoIniProofs` | pseudo_ini_proofs.dfy | round trip of Compose/Snapshot, write-then-read, key matching, edge cases |
| `Scales` | scales.dfy | a scale: its name, the hash-gated reload (VerifyRefreshed), the constructor, DoPlugin's result normalisation |
| `Registry` | registry.dfy | LazyPreUpdate: the config step, the backward pass, the listing pass |
| `SourceExtraction` | source_extraction.dfy | how `scale add` cuts the name and the script out of its arguments |
| `ScaleVerbs` | scale_verbs.dfy | Snek_DoScale: the verb table, the verbs and their reply texts |
| `Dispatch` | dispatch.dfy | Client_MessageReceived: the update, the parse, the route to verbs or scripts |

The outside world is passed in as values:
- **Files:** a map from path to content. The directory listing is a
  sequence of paths in listing order, and the config file has a write
  time.
- **Lua runtime:** oracles for the string hash, for running a script's
  text (it completes or throws with a message), for calling a script's
  `plugin` function, and for converting a Lua value to a string.
- **Exceptions:** an exception that escapes a member is an
  `Outcome.Fault`. It carries the exception's type name, except for a
  script that fails to run: that fault carries the Lua error message
  (`Scales.VerifyRefreshed`, and the refusal of `add`). When state was
  already changed before the throw, the member returns a `Partial` that
  holds both that state and the fault.

## Model

| member | source | states |
|---|---|---|
| PseudoIni.ParseLine | Snek/Snek/Utils/INIParser.cs:109-113 | a line is refused exactly when its trimmed text has no '='; the key and value parsed hold no '=' |
| PseudoIni.ParseLineWithin | Snek/Snek/Utils/INIParser.cs:111-112 | the key and value parsed are made only of characters of the line |
| PseudoIni.ParseLines | Snek/Snek/Utils/INIParser.cs:109-113 | the lines fail together exactly when one of them lacks '='; otherwise there is one pair per line, in line order, each the parse of its line |
| PseudoIni.Snapshot | Snek/Snek/Utils/INIParser.cs:100-116 | null exactly for a missing file; an existing file fails exactly when some line of its trimmed text lacks '='; otherwise one pair per line, none holding '=' or a line break |
| PseudoIni.KeyEquals | Snek/Snek/Utils/INIParser.cs:93-96 | no contract of its own; its facts are in KeyEqualsSymmetric, KeyEqualsPadded, KeyEqualsLower and KeyEqualsTrimStart |
| PseudoIni.Compose | Snek/Snek/Utils/INIParser.cs:118-127 | no contract of its own; its facts are in ComposeAppend, ComposeSingle and SnapshotOfCompose |
| PseudoIni.FirstMatch | Snek/Snek/Utils/INIParser.cs:52-61 | the index found holds a key-equal pair and no earlier pair is key-equal; none is found only when no pair is key-equal |
| PseudoIni.Upsert | Snek/Snek/Utils/INIParser.cs:51-67 | the first key-equal pair is replaced in place and every other pair stays where it was; with no key-equal pair, exactly one pair is appended at the end |
| PseudoIni.WriteItem | Snek/Snek/Utils/INIParser.cs:30-79 | a key holding '=', ';' or a line break is refused and the file left as it was; the write succeeds exactly when the key is allowed and the snapshot parses; a missing file becomes the single line `key=value`; a refused write changes nothing |
| PseudoIni.Lookup | Snek/Snek/Utils/INIParser.cs:84-88 | the search answers null exactly when no pair is key-equal; otherwise it gives the value of a key-equal pair with no key-equal pair before it |
| PseudoIni.ReadItem | Snek/Snek/Utils/INIParser.cs:81-91 | a missing file and an unparsable file both throw; otherwise the answer is null exactly when no key matches, and else the value of the first key-equal pair |
| PseudoIniProofs.ComposeAppend | Snek/Snek/Utils/INIParser.cs:118-127 | composing two lists of pairs one after the other gives the two texts one after the other |
| PseudoIniProofs.ComposeSingle | Snek/Snek/Utils/INIParser.cs:118-127 | one pair is written as `key=value` and a line break |
| PseudoIniProofs.ParseLineOf | Snek/Snek/Utils/INIParser.cs:111-112 | a line `k=v` with no further '=' reads back as `k` without leading and `v` without trailing white space |
| PseudoIniProofs.SnapshotOfCompose | Snek/Snek/Utils/INIParser.cs:100-127 | reading back the text composed from a non-empty list of pairs without '=' or line breaks gives the same pairs, keys without leading and values without trailing white space |
| PseudoIniProofs.SnapshotOfLines | Snek/Snek/Utils/INIParser.cs:100-116 | an existing file whose trimmed lines parse is read as those pairs |
| PseudoIniProofs.KeyEqualsSymmetric | Snek/Snek/Utils/INIParser.cs:93-96 | key equality is symmetric |
| PseudoIniProofs.KeyEqualsPadded | Snek/Snek/Utils/INIParser.cs:93-96 | white space around a key does not change which keys it equals |
| PseudoIniProofs.KeyEqualsLower | Snek/Snek/Utils/INIParser.cs:93-96 | letter case does not change which keys a key equals |
| PseudoIniProofs.KeyEqualsTrimStart | Snek/Snek/Utils/INIParser.cs:93-96 | dropping a key's leading white space does not change which keys it equals |
| PseudoIniProofs.FirstMatchNormal | Snek/Snek/Utils/INIParser.cs:84-88 | the trimming the parser does to each pair never changes which pair is the first key match |
| PseudoIniProofs.LookupUpsert | Snek/Snek/Utils/INIParser.cs:51-67 | after the read-modify-write, the first pair matching the key is the pair just written |
| PseudoIniProofs.UpsertWellFormed | Snek/Snek/Utils/INIParser.cs:51-67 | writing a pair without '=' or line breaks into such a list keeps it free of them and non-empty |
| PseudoIniProofs.NoReservedInKey | Snek/Snek/Utils/INIParser.cs:22 | a key that passed the reserved check holds no '=' and no line break |
| PseudoIniProofs.WriteSnapshot | Snek/Snek/Utils/INIParser.cs:30-79 | after a successful write of a value without '=' or a line break, the file reads as its earlier pairs with the first match replaced in place, or with the new pair appended, each trimmed as the parser trims |
| PseudoIniProofs.WriteThenRead | Snek/Snek/Utils/INIParser.cs:30-91 | reading a key right after a successful write of a value without '=' or line break gives that value back, less its trailing white space |
| PseudoIniProofs.ParseLineTruncates | Snek/Snek/Utils/INIParser.cs:111-112 | a second '=' on a line cuts the value short there |
| PseudoIniProofs.EmptyFileFaults | Snek/Snek/Utils/INIParser.cs:100-113 | an existing empty file cannot be parsed, so writing to it answers false and reading from it throws |
| PseudoIniProofs.CarriageReturnKeyAccepted | Snek/Snek/Utils/INIParser.cs:22-37 | a carriage return is not reserved: a key ending in one is written |
| FilePaths.FileNameShape | Snek/Snek/Scale.cs:12 | the file name is the part of the path after its last '/', and holds no '/' |
| FilePaths.FileStemShape | Snek/Snek/Scale.cs:12 | the name without extension is the file name cut at its last '.', and is the whole file name exactly when it has no '.' |
| FilePaths.StemUnderDirectory | Snek/Snek/Scale.cs:12 | a file `dir/name.ext` has file name `name.ext` and name without extension `name` |
| Scales.Name | Snek/Snek/Scale.cs:12 | no contract of its own; its facts are in NameShape and NameOfScaleFile |
| Scales.NameShape | Snek/Snek/Scale.cs:12 | a scale's name holds no '/' and neither starts nor ends in white space |
| Scales.NameOfScaleFile | Snek/Snek/Scale.cs:12 | the scale at `dir/stem.lua` is named the trimmed `stem` |
| Scales.VerifyRefreshed | Snek/Snek/Scale.cs:26-37 | a missing file throws FileNotFoundException and leaves the scale as it was; the text is run exactly when its hash differs from the one recorded; a run replaces the runtime before it may throw; the hash is recorded only when the run completes, and a throw carries the run's message |
| Scales.RefreshIdempotent | Snek/Snek/Scale.cs:26-37 | refreshing twice over the same files leaves what refreshing once left, and a second refresh after a successful one runs nothing |
| Scales.FailedTextRetried | Snek/Snek/Scale.cs:31-35 | a text whose run threw is run again on the next refresh, because its hash was never recorded |
| Scales.HashCollisionNotReloaded | Snek/Snek/Scale.cs:29-30 | a new text whose hash equals the recorded one is not loaded |
| Scales.NewScale | Snek/Snek/Scale.cs:20-24 | building a scale succeeds exactly when its file exists and its text either hashes to 0 or runs; the scale then records the text's hash, and has no runtime exactly when that hash is 0 |
| Scales.Normalise | Snek/Snek/Scale.cs:46-65 | nil gives null; a table gives one string per table value in iteration order; anything else gives a single string |
| Scales.NilIsNotEmptyTable | Snek/Snek/Scale.cs:46-58 | a nil result and an empty table are told apart: null versus an empty list |
| Scales.DoPlugin | Snek/Snek/Scale.cs:41-66 | without a runtime the call throws a NullReferenceException; an exception from the script escapes; otherwise the result is normalised |
| Registry.ReloadIndicator | Snek/Snek/Sneks/GarterSnek.cs:74-78 | the scales and the recorded write time are never touched; with no config file, or an unchanged write time, nothing changes; a throw leaves the bot as it was |
| Registry.ReloadReads | Snek/Snek/Sneks/GarterSnek.cs:74-78 | with a changed write time the indicator becomes what ReadItem reads for "indicator", null included, and ReadItem's exception escapes |
| Registry.ReloadAgain | Snek/Snek/Sneks/GarterSnek.cs:74-78 | the recorded write time is never updated, so the config step reads the same indicator again and changes nothing more |
| Registry.Visit | Snek/Snek/Sneks/GarterSnek.cs:85-90 | one step of the backward pass removes at most one scale, and when it does not throw its index is still in range; the rest is in VisitShape |
| Registry.VisitShape | Snek/Snek/Sneks/GarterSnek.cs:85-90 | one step of the backward pass: an entry whose file is gone is removed, and nothing else is; the entries before the index are untouched, and so are the entries after it; when no exception escapes, the scale now at the index is in step with its file; removing the last entry makes the read that follows throw |
| Registry.Prune | Snek/Snek/Sneks/GarterSnek.cs:82-91 | the backward pass never grows the registry; the rest is in PruneKeepsFirst, PruneFaultsOnMissingLast, PrunePaths, PruneSucceeds, PruneDone and PruneSettled |
| Registry.PruneKeepsFirst | Snek/Snek/Sneks/GarterSnek.cs:82-91 | the backward pass never looks at index 0: the first scale survives unchanged |
| Registry.PruneFaultsOnMissingLast | Snek/Snek/Sneks/GarterSnek.cs:82-89 | with two or more scales, when the last scale's file is gone, the pass removes it and then throws ArgumentOutOfRangeException reading the same index |
| Registry.PrunePaths | Snek/Snek/Sneks/GarterSnek.cs:82-91 | a pass that does not throw keeps the first scale and, of those it visits, exactly the scales whose file exists, in order |
| Registry.PresentMeans | Snek/Snek/Sneks/GarterSnek.cs:85-86 | the paths kept are those of the list whose file exists |
| Registry.PruneSucceeds | Snek/Snek/Sneks/GarterSnek.cs:82-91 | when the last scale's file exists and every changed text runs, the pass does not throw and leaves every scale after the first in step with its file |
| Registry.PruneDone | Snek/Snek/Sneks/GarterSnek.cs:82-91 | a pass that does not throw leaves every scale after the first in step with its file |
| Registry.PruneSettled | Snek/Snek/Sneks/GarterSnek.cs:82-91 | over scales already in step with their files the pass changes nothing |
| Registry.PathKeyIsNameKey | Snek/Snek/Sneks/GarterSnek.cs:97-101 | the key compared for a listed file is its would-be scale's lower-cased name |
| Registry.KnownMeans | Snek/Snek/Sneks/GarterSnek.cs:98-106 | a listed file counts as known exactly when some scale has its key |
| Registry.AddNew | Snek/Snek/Sneks/GarterSnek.cs:94-111 | the listing pass keeps every existing entry in its place; the rest is in AddNewDistinct, AddNewOnlyUnknown, AddNewCovers, AddNewFromListing, AddNewSettled, AddNewFaultFrom and AddNewKnown |
| Registry.AddNewDistinct | Snek/Snek/Sneks/GarterSnek.cs:94-111 | a registry with no two equal keys keeps that property through the listing pass, entries added during the pass included |
| Registry.AddNewOnlyUnknown | Snek/Snek/Sneks/GarterSnek.cs:94-111 | whatever the registry held before, even duplicates, every entry the listing pass adds has a key that no earlier entry has, entries added earlier in the same pass included |
| Registry.AddNewCovers | Snek/Snek/Sneks/GarterSnek.cs:94-111 | after a listing pass that does not throw, every listed file is known |
| Registry.AddNewFromListing | Snek/Snek/Sneks/GarterSnek.cs:94-111 | existing entries keep their place, and the entries added are listed files in listing order |
| Registry.AddNewSettled | Snek/Snek/Sneks/GarterSnek.cs:109-110 | every scale the listing pass adds is in step with its file |
| Registry.AddNewFaultFrom | Snek/Snek/Sneks/GarterSnek.cs:109-110 | an exception from the listing pass is the constructor's exception for one of the listed files |
| Registry.AddNewKnown | Snek/Snek/Sneks/GarterSnek.cs:94-111 | when every listed file is known the pass adds nothing |
| Registry.Rescan | Snek/Snek/Sneks/GarterSnek.cs:82-111 | both passes together keep the first scale |
| Registry.RescanPaths | Snek/Snek/Sneks/GarterSnek.cs:82-111 | after both passes the registry is the first scale, then the visited scales whose file exists, then listed files in listing order |
| Registry.RescanAgain | Snek/Snek/Sneks/GarterSnek.cs:82-111 | repeating both passes over unchanged files changes nothing |
| Registry.RescanStopsOnMissingLast | Snek/Snek/Sneks/GarterSnek.cs:82-91 | with two or more scales, when the last scale's file is gone, the passes stop with ArgumentOutOfRangeException after removing it, and the listing is never read |
| Registry.LazyPreUpdate | Snek/Snek/Sneks/GarterSnek.cs:71-112 | the update keeps the recorded write time and the first scale |
| Registry.UpdateRescans | Snek/Snek/Sneks/GarterSnek.cs:71-112 | once the config step succeeds, the update's scales and exception are those of the two passes |
| Registry.UpdateIdempotent | Snek/Snek/Sneks/GarterSnek.cs:71-112 | a second update over an unchanged world changes nothing |
| Registry.UpdateStopsOnMissingLast | Snek/Snek/Sneks/GarterSnek.cs:82-91 | once the config step succeeds, with two or more scales, the update throws ArgumentOutOfRangeException whenever the last scale's file is gone, and that scale is removed |
| SourceExtraction.LuaTagIsStartsWith | Snek/Snek/Sneks/GarterSnek.cs:251 | the tag test is a case-insensitive "starts with lua" at the running offset |
| SourceExtraction.SkipForward | Snek/Snek/Sneks/GarterSnek.cs:246-261 | the forward loop skips the leading fence and then the "lua" tags that follow it; the offset never passes the end of the body |
| SourceExtraction.SkipBackward | Snek/Snek/Sneks/GarterSnek.cs:266-273 | the backward loop counts the trailing fence characters |
| SourceExtraction.Extract | Snek/Snek/Sneks/GarterSnek.cs:241-275 | without a backtick the name's Substring throws; the name holds no backtick; a script it gives does not end in a backtick or white space |
| SourceExtraction.ExtractFaults | Snek/Snek/Sneks/GarterSnek.cs:241-275 | extraction throws exactly when there is no backtick, or when nothing but backticks and white space follows the first one |
| SourceExtraction.OffsetsOverlap | Snek/Snek/Sneks/GarterSnek.cs:246-275 | the two offsets overlap exactly when the body is all backticks and white space |
| SourceExtraction.ExtractCodeBlock | Snek/Snek/Sneks/GarterSnek.cs:241-275 | a name followed by a code block tagged lua gives the lower-cased trimmed name and the script, with the line break after the tag kept |
| ScaleVerbs.DoScale | Snek/Snek/Sneks/GarterSnek.cs:176-383 | only `add` can throw; every verb but `add` and `remove` leaves scales and files alone; the help words give the guide; an unknown sub-command gets a hint to try `list` |
| ScaleVerbs.Cat | Snek/Snek/Sneks/GarterSnek.cs:205-232 | no contract of its own; its fact is in AddThenCat |
| ScaleVerbs.Add | Snek/Snek/Sneks/GarterSnek.cs:236-306 | no contract of its own; its facts are in AddFaults, AddRefusesFailingScript, AddAppends, AddThenCat and AddTwiceDuplicates |
| ScaleVerbs.Remove | Snek/Snek/Sneks/GarterSnek.cs:310-348 | no contract of its own; its facts are in DropKeepsFirst, DropLastMatch, DropWithoutMatch, RemoveKeepsFirst and AddThenRemove |
| ScaleVerbs.List | Snek/Snek/Sneks/GarterSnek.cs:352-372 | no contract of its own; its facts are in ListReplies, ListShowsEveryName and ListingSplit |
| ScaleVerbs.Render | Snek/Snek/Sneks/GarterSnek.cs:176-383 | no contract of its own; the reply texts are constants of the verbs, and the list text's facts are in ListReplies |
| ScaleVerbs.ListReplies | Snek/Snek/Sneks/GarterSnek.cs:352-371 | `list` changes nothing; it gives the default-scales message exactly when there are no scales; otherwise its text opens with "Found N scale(s): " and holds a "+ name" line for every scale |
| ScaleVerbs.ListShowsEveryName | Snek/Snek/Sneks/GarterSnek.cs:358-363 | the list text holds a "+ name" line for every scale |
| ScaleVerbs.ListingSplit | Snek/Snek/Sneks/GarterSnek.cs:359-362 | the "+ name" lines follow registry order |
| ScaleVerbs.AddFaults | Snek/Snek/Sneks/GarterSnek.cs:241-275 | `add` throws exactly when the extraction does, with ArgumentOutOfRangeException |
| ScaleVerbs.AddRefusesFailingScript | Snek/Snek/Sneks/GarterSnek.cs:277-285 | a script that does not run is refused with its error message, and no file or scale changes |
| ScaleVerbs.AddAppends | Snek/Snek/Sneks/GarterSnek.cs:287-298 | a script that runs is written to `scales/<name>.lua`, exactly one scale for that file is appended, the others keep their place, and the reply counts the new total |
| ScaleVerbs.ExtractedNameNormal | Snek/Snek/Sneks/GarterSnek.cs:242 | the name `add` uses is trimmed and lower-case |
| ScaleVerbs.AddThenCat | Snek/Snek/Sneks/GarterSnek.cs:205-221 | `cat` of a name just added shows the script written |
| ScaleVerbs.AddTwiceDuplicates | Snek/Snek/Sneks/GarterSnek.cs:287-298 | `add` does not check for an existing name: adding twice overwrites the file once more and leaves two equal entries |
| ScaleVerbs.FindFromBack | Snek/Snek/Sneks/GarterSnek.cs:322-331 | the index found is at least 1, has the name, and no later index has it; none is found only when no index from 1 on has the name |
| ScaleVerbs.DropKeepsFirst | Snek/Snek/Sneks/GarterSnek.cs:318-340 | `remove` takes out at most one entry and never the first; the registry changes exactly when the file is deleted |
| ScaleVerbs.DropLastMatch | Snek/Snek/Sneks/GarterSnek.cs:318-336 | with the file present, the last entry from index 1 on with the name is removed, the file deleted, and the reply counts what is left |
| ScaleVerbs.DropWithoutMatch | Snek/Snek/Sneks/GarterSnek.cs:318-340 | with no entry of that name from index 1 on, nothing changes and the reply is the "doesn't seem to be a scale" or the not-found message |
| ScaleVerbs.AddedScaleKey | Snek/Snek/Sneks/GarterSnek.cs:289-326 | the scale added under a plain name is found by `remove` under that name |
| ScaleVerbs.AddThenRemove | Snek/Snek/Sneks/GarterSnek.cs:236-348 | with at least one scale already there, removing a plainly named scale right after adding it restores the registry and deletes its file |
| ScaleVerbs.AddToEmptyStays | Snek/Snek/Sneks/GarterSnek.cs:295-331 | a scale added to an empty registry sits at index 0, so `remove` never finds it and changes nothing |
| ScaleVerbs.RemoveKeepsFirst | Snek/Snek/Sneks/GarterSnek.cs:310-348 | `remove` keeps the first scale, takes out at most one, and changes the registry exactly when it deletes the file |
| ScaleVerbs.DoScaleKeepsFirst | Snek/Snek/Sneks/GarterSnek.cs:176-383 | no verb removes or replaces the first scale |
| Dispatch.ParseCommand | Snek/Snek/Sneks/GarterSnek.cs:140-143 | the parse throws ArgumentOutOfRangeException exactly when the message's first token is empty |
| Dispatch.ParseComposed | Snek/Snek/Sneks/GarterSnek.cs:140-143 | a message of one character, a word and the rest gives the lower-cased word and the trimmed rest: exactly one indicator character is dropped |
| Dispatch.ParseSub | Snek/Snek/Sneks/GarterSnek.cs:151-154 | no contract of its own; its facts are in ParseSubComposed and RouteSendsVerbReply |
| Dispatch.ParseSubComposed | Snek/Snek/Sneks/GarterSnek.cs:151-154 | the sub-command is the lower-cased first word of the arguments and its arguments the trimmed rest |
| Dispatch.MixedCaseNeverMatches | Snek/Snek/Sneks/GarterSnek.cs:140-163 | the command word is lower-case, so a scale whose name has an upper-case letter is never run |
| Dispatch.RunScripts | Snek/Snek/Sneks/GarterSnek.cs:161-165 | with no scale of that name, the answer stays null |
| Dispatch.LastMatchWins | Snek/Snek/Sneks/GarterSnek.cs:161-165 | when every scale of that name answers, the last one's answer stands, null included |
| Dispatch.FirstFaultStops | Snek/Snek/Sneks/GarterSnek.cs:161-165 | the first scale of that name to throw ends the loop with its exception |
| Dispatch.RouteSendsLastAnswer | Snek/Snek/Sneks/GarterSnek.cs:158-170 | any other command sends the text the scripts' loop leaves, sends nothing when it leaves null, and sends nothing but lets the exception escape when a script throws; bot and files are untouched |
| Dispatch.RouteSendsLastMatch | Snek/Snek/Sneks/GarterSnek.cs:158-170 | when every scale of the command's name answers, the last one's answer is sent, and nothing when that answer is null |
| Dispatch.RouteSendsVerbReply | Snek/Snek/Sneks/GarterSnek.cs:148-170 | the `scale` and `scales` commands send the verb's reply with the indicator, and keep the verb's scales and files; when the verb throws, nothing is sent and bot and files stay as they were |
| Dispatch.Route | Snek/Snek/Sneks/GarterSnek.cs:129-171 | handling a message changes nothing in the bot but its scales, and nothing is sent when an exception escapes |
| Dispatch.NotIndicatedIgnored | Snek/Snek/Sneks/GarterSnek.cs:134 | a message that does not start with the indicator is ignored and changes nothing |
| Dispatch.ScaleCommandIgnoresScripts | Snek/Snek/Sneks/GarterSnek.cs:148-157 | the `scale` and `scales` commands never run a script, whatever the scripts would answer |
| Dispatch.ScriptsChangeNothing | Snek/Snek/Sneks/GarterSnek.cs:158-166 | any other command changes neither the bot nor the files, and can only send a script's answer |
| Dispatch.RouteKeepsFirst | Snek/Snek/Sneks/GarterSnek.cs:129-171 | no message removes or replaces the first scale |
| Dispatch.Receive | Snek/Snek/Sneks/GarterSnek.cs:117-171 | the recorded write time never changes; an exception from the update escapes and nothing is sent; the bot's own messages send nothing and keep the updated bot; once the update succeeds, a message from anyone else is routed as its trimmed text over the updated bot, so it is answered as Route answers it |
| Dispatch.BlankMessageFaults | Snek/Snek/Sneks/GarterSnek.cs:129-143 | the empty-message guard never fires: with an empty indicator a blank message reaches the parse and throws |
| Dispatch.FirstScaleStays | Snek/Snek/Sneks/GarterSnek.cs:117-171 | the first scale survives every message, update included |

## Left out

- File writes and deletes that fail, directory creation, and the exceptions of File.* and Directory.* other than a missing file: the file system is a map that always accepts a write.
- WriteItem's catch of a failed write (Snek/Snek/Utils/INIParser.cs:73-76): only the throwing snapshot reaches that catch in the model, because writing always succeeds.
- Text.Lower: the model lower-cases the ASCII letters only and compares every string ordinally. The program does not. ToLowerInvariant (Snek/Snek/Sneks/GarterSnek.cs:101, 140, 151, 242, 251, 314, 324) maps every letter with a case mapping, KeyEquals uses the culture's ToLower (Snek/Snek/Utils/INIParser.cs:95), and StartsWith(string) (lines 134 and 251) and IndexOf(string) (line 241) compare by culture. So a scale file `École.lua` runs on the command `École` in the model but not in the program, the listing pass registers both `École.lua` and `école.lua` in the model where the program registers one, and `remove École` looks for `scales/École.lua` in the model but for `scales/école.lua` in the program.
- Dispatch.ParseComposed and all of Text: strings are sequences of Unicode scalar values, while .NET strings count UTF-16 code units. An indicator outside the Basic Multilingual Plane (such as an emoji) is one character in the model, so the parse's `Substring(1)` (Snek/Snek/Sneks/GarterSnek.cs:140) strips it whole. The program strips only its high surrogate and keeps the low one in the command word, so such a bot never matches a command. ParseComposed's promise holds for the program only when the first character is in that plane.
- Files: paths are exact map keys with no normalisation, so `scales/./poke.lua` and `scales/poke.lua` are different files. '/' is the only separator; the Windows separator, a backslash, is not modelled.
- Discord: logging in, the message's author and channel, and the send itself (Snek/Snek/Sneks/GarterSnek.cs:59-67, 170). These are network I/O. A message comes in as its text plus a "from the bot itself" flag, and what would be sent is returned as `Sent`.
- The mutex around the update (Snek/Snek/Sneks/GarterSnek.cs:120-122): each message is one sequential step. An exception from LazyPreUpdate, which the model shows can happen (UpdateStopsOnMissingLast, FailedTextRetried), skips ReleaseMutex in the program, so the mutex stays held and a later message handled on another thread waits for it. The model handles the next message normally.
- SnekGarter, SnekBasket, Program and the ISnek interfaces: bootstrap, threads and declarations with no logic.
- The GarterSnek constructor's reads of its name, token and paths: the world's config path and the bot's recorded write time are parameters.
- The help text body (Snek/Snek/Sneks/GarterSnek.cs:187-201) is a constant. It is reproduced in `ScaleVerbs.HowTo`, and no property is stated about it.
- The cat branch for null arguments (Snek/Snek/Sneks/GarterSnek.cs:228-231) and add's null check (238-239) are unreachable: the arguments are never null. Empty arguments to `cat` look for `scales/.lua`, as the code does.
- ScaleVerbs.AddAppends and the `CannotMake` reply (Snek/Snek/Sneks/GarterSnek.cs:300-303): the model assumes that running a Lua text (`lua.compile`) is a function of the text, so a text that has just run runs again when `new Scale(path)` re-reads it (Snek/Snek/Scale.cs:20-35). In the program that second run can throw, for instance for a script that uses `math.random` or `os.time`. Then `add` answers "couldn't make that into a scale" with the file already written (Snek/Snek/Sneks/GarterSnek.cs:294) and no scale added. The model never reaches that state, so the reply cannot be produced.
- Scales.Name, FilePaths.FileName and FilePaths.FileStem carry no contract of their own. Their facts are in NameShape, FileNameShape and FileStemShape.
- PseudoIni.KeyEquals, PseudoIni.Compose, Dispatch.ParseSub, ScaleVerbs.List and ScaleVerbs.Render carry no contract of their own. Their facts are in the lemmas their rows name.
- ScaleVerbs.Add, ScaleVerbs.Remove and ScaleVerbs.Cat carry no contract of their own. Their facts are in AddFaults, AddRefusesFailingScript, AddAppends, DropKeepsFirst, DropLastMatch, DropWithoutMatch, RemoveKeepsFirst and AddThenCat.
- Registry.Prune and Registry.Visit state only length bounds in their own contracts. Their content is stated by VisitShape, PrunePaths, PruneKeepsFirst, PruneFaultsOnMissingLast, PruneSucceeds and PruneDone.
- Registry.AddNew's own contract states only that existing entries keep their place. The other facts are in AddNewDistinct, AddNewOnlyUnknown, AddNewCovers, AddNewFromListing, AddNewSettled, AddNewFaultFrom and AddNewKnown.
- PseudoIni.WriteItem's own contract does not describe the text written over an existing file. That is stated by WriteSnapshot, Upsert and LookupUpsert.
- Registry.LazyPreUpdate and Registry.Rescan state in their own contracts only that the write time and the first scale are kept. The rest is in UpdateRescans, RescanPaths, RescanAgain, UpdateIdempotent and UpdateStopsOnMissingLast.
- SourceExtraction.Extract's own contract states the missing-backtick fault and the shape of the name and script. When it faults is in ExtractFaults; what it gives for a code block is in ExtractCodeBlock.
- Dispatch.RunScripts's own contract covers only the case where no scale has the name. The other cases are in LastMatchWins and FirstFaultStops.
- Dispatch.Route's own contract states only what it never changes. Its cases are in RouteSendsLastAnswer, RouteSendsLastMatch, RouteSendsVerbReply, NotIndicatedIgnored, ScaleCommandIgnoresScripts, ScriptsChangeNothing, RouteKeepsFirst and BlankMessageFaults.
- MoonSharp itself (Script.DoString, Call, CastToString, the iteration order of table values): abstract oracles. A Lua value is nil, void, a table given by its values in iteration order, or an opaque scalar.
- The hash is string.GetHashCode, taken as an arbitrary function of the text. Its per-process randomisation is not modelled.

Where the files disagree with each other, the model follows each file as written:

- GarterSnek.cs calls `HasChanged` and `Refresh` on a scale, and a one-argument `DoPlugin` that returns a string (lines 89-90, 164). Scale.cs defines none of these. It has only `VerifyRefreshed` and a two-argument `DoPlugin` that returns a list.
  - "HasChanged then Refresh" is modelled as one VerifyRefreshed. Its FileNotFoundException cannot arise there, because `Exists` (Snek/Snek/Scale.cs:13) was just checked.
  - The one-argument call is the `Plugin` oracle of `Dispatch`: an optional string, or an exception.
- GarterSnek.cs reads `config.LastTimeWritten` (line 76), which INIParser.cs does not define. It is modelled as the world's `configStamp`. `config.Exists` (Snek/Snek/Utils/INIParser.cs:20) is "the config path is in the map".
- ReadItem on a missing file throws, because its loop runs over the null snapshot (Snek/Snek/Utils/INIParser.cs:84). The config step only reads an existing file, so that throw is not reached there.
- A refresh whose text throws leaves the fresh runtime in place and the old hash recorded (Snek/Snek/Scale.cs:31-35). The old runtime is lost, and the same text is run again on the next refresh.
- The recorded config write time is never updated (Snek/Snek/Sneks/GarterSnek.cs:76-77). After the first change to the config, every message re-reads the indicator.
- Index 0 is never visited by the backward pass or by `remove` (Snek/Snek/Sneks/GarterSnek.cs:82, 322). The first scale can never be pruned, refreshed there or removed.
- An exception thrown by the update, by the parse or by a script escapes the handler. Nothing catches it before the send.
