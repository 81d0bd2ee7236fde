# lnpm, verified

A Dafny model of the parts of lnpm whose correctness is an argument rather than a
look: the link and tag store, the order-preserving package.json editor, the selection
and hashing of a package's files, the incremental relink, and the order in which the
commands write a project's three files. Each is a few modules that can be read on
their own.

**The store** (`LinkStore`, `LinkIndexes`, `StoreInvariant`, `TagMoves`, `LinkMoves`,
`LinkDatabase`, `AddSpec`, `StoreRuns`, `IssuedIDs`, `ProjectLinks`, `PinSafety`,
`Damage`, `DamageLimits`, `CommandLaws`, `Migration`, `Gc`, `GcExact`, `GcRun`). `LinkStore` gives each operation as a
function from a state to the state it commits or the error that rolls it back;
`LinkDatabase.Database` is the class that holds one field per bucket and updates them
in place, each method proved to commit exactly that. A stored value is `Readable` or
`Damaged`. The invariant says that both link indexes are exact inverses of the rows,
that rows name existing records, that a project holds one row per package name, and
that versions, tags and the name index agree; it is kept by every command of any run.
`CommandLaws` says of the records themselves what each command leaves.

**The editor** (`JsonText`, `JsonTree`, `JsonSkip`, `JsonSpans`, `JsonEdits`,
`JsonObjects`, `JsonCores`, `PackageJson`, `PackageJsonLaws`, `PackageJsonUndo`,
`PackageJsonLines`). A
document keeps every byte of its concrete syntax, parsing and printing are inverse
(RFC 8259, sections 2 to 7), and each splice is proved to be an edit of the document.
Offsets are those the token reader gives: each value's end is where counting brackets
stops. What an edit means is stated against small reference definitions of setting and
removing a name, and what it does to lines and bytes against the text alone.

**The pack** (`Paths`, `Glob`, `FilesField`, `Ignore`, `IgnoreLoader`, `PackRules`,
`PackWalk`, `PackLaws`, `PackManifest`, `IgnoreVerdicts`, `PackSkips`, `FilesFieldLaws`,
`IgnoreLaws`, `HashStream`). The walk with its pruning and its memo tables packs exactly
what flat rules select; what entries and ignore lines mean is stated on paths alone. The glob library is a parameter:
all that is asked of it is that plain patterns mean what they say and that where it
matches a whole pattern, matching its segments one by one leads on, which is exactly what
the reach test needs (`ReachTestIsSound`).

**The relink** (`Relink`, `RelinkRun`) keeps a history of the disk's states, so that
what a crash may leave between two renames is part of what is proved.

**The specifier** (`Specifier`, `SpecifierRun`, `SpecifierLaws`, `SpecifierText`) does the
same for package.json, `lnpm.lock` and the retreat snapshot. A user's range is any text
but a reference to the linked copies, which lnpm writes itself; an entry that records ""
records nothing. `SpecifierText` ties its package.json to the editor's texts.

## Where the code does not keep its promise

Each of these is a lemma with the exact condition.

- Deleting a tag, or restoring an unpinned link whose build the default tag no longer
  names, leaves a follower off its channel (`DeleteTagDetachesItsFollowers`,
  `RestoreFollowsLatestOrPins`).
- A pull leaves a row off its channel when the lock entry already is of the build the channel
  names, since it compares the entry alone before it repoints (pull.go:185-189): so after a
  pull whose row write was refused (`PullTracks`).
- A user's empty range, which npm reads as any version, is no range to the records: add
  reads "" as no original version (add.go:1079-1093), and remove and retreat then delete the
  dependency (remove.go:88-101, retreat.go:232-249). Adding and then removing or retreating
  keeps a range if and only if it is not empty (`AddThenRemove`); `Add`, `AddBatch`,
  `Remove`, `Retreat` and `Restore` say exactly when each loses an empty one.
- Any other range is lost when a restore drops a snapshot entry because the
  lock has the name, though the lock records no original version
  and package.json no longer holds the range (`ConsumingExactly`, `Restore`;
  `InterruptedRestoreThenAddLoses` is a run that gets there).
- It is lost by `add --pure` followed by `remove` when neither the lock nor the
  snapshot had the name (`PureAddThenRemove`), and, for one of two ranges, by an add
  when the two dependency fields hold different ones (`TwoFieldsKeepOneRange`).
- It is lost by a batch that names a package more than once, when neither record had the
  name, one of its package.json writes lands and another fails (`AddBatch`, `NamedTwice`,
  `RollingBackAWrittenPackage`).
- Removing a package just added does not put the files back when an earlier lock had it or
  was an empty file, when the field add does not write named it (as with `add --dev` of a
  name in dependencies, which remove leaves in devDependencies), or when the value add
  found was empty or a reference (`RemoveUndoesAdd`).
- The test whether a "files" entry may reach beneath an unreadable directory reads the
  entry segment by segment. It answers wrongly for an entry such as `{**,x}/y` when the
  library expands the brace (`BraceIsMissed`), so that the directory may be skipped with a
  file the entry selects. It is right for every entry and directory if and only if the library
  follows its matches (`ReachTestIsSound`); the next results are for such libraries.
- Skipping what cannot be read may change what ships, because an ignore file may be among
  it. Without a "files" field, a package whose walk skipped an unreadable path ships what it
  would ship with everything readable exactly when nothing beneath a directory whose ignore
  file could not be looked up would ship if that file let everything in
  (`SkippingLosesExactly`). A hidden `.npmignore` in a directory the walk enters always
  fails that (`HiddenNpmIgnoreLoses`), and `ANegationIsLost` is a run that gets there. With
  a "files" field only the root's ignore file is asked, and nothing is lost.
- Removing an entry just set does not restore the text when the field was missing, held
  no object, held the entry already, or held an empty object with blanks inside
  (`RemoveUndoesSet`).

A retreat whose package.json writes fail is not among them: the range is then in the
snapshot, and no hypothesis about those writes is needed.

The walk treats a root directory named `package.json` like the manifest it exempts and
never prunes it. `ShipsFlatly` says so. A package whose manifest was read has no such
directory, and `SkippingLosesNothing` and `SkippingLosesExactly` ask for no more than that.

## Model

| member | source | states |
|---|---|---|
| StoreInvariant.TagKeyInjective | internal/db/db.go:58-69 | A NUL-free name and a tag are recovered from their key: no two packages share one. |
| StoreInvariant.TagsForPackageExact | internal/db/db.go:765-780 | The prefix scan returns exactly that package's tags, each naming a recorded build of it. |
| StoreInvariant.MoveLinksCarries | internal/db/db.go:600-672 | Moving a tag between two builds repoints exactly its unpinned followers, succeeds, and leaves indexes exact and one row per name. |
| TagMoves.SetTagKeepsValid | internal/db/db.go:542-575 | Pointing a tag at a recorded build succeeds and keeps every invariant, followers tracking their channel included. |
| TagMoves.TagMoveIsConfined | internal/db/db.go:600-672 | A tag move changes no link that is pinned, follows another tag or belongs to another package. |
| TagMoves.PublishKeepsValid | internal/db/db.go:456-518 | A publish succeeds, keeps every invariant, and leaves its content under one record that the tag names. |
| LinkMoves.InsertLinkKeepsValid | internal/db/db.go:1616-1760 | Recording a link succeeds and keeps every invariant; followers go on tracking when the new link is pinned or on its channel. |
| LinkMoves.InsertLinkRecords | internal/db/db.go:1616-1760 | Afterwards the project holds one row for the name, it is the row asked for, and every other row is as it was. |
| LinkMoves.DeleteLinkShape | internal/db/db.go:1965-2001 | Deleting a link drops exactly the rows joining the two and nothing else. |
| LinkMoves.DeletePackageShape | internal/db/db.go:997-1057 | Collecting a build drops its record, its files, its tags and exactly the rows that consume it. |
| LinkMoves.DeletePackageKeepsValid | internal/db/db.go:997-1080 | Collecting a build keeps every invariant, the name index mirroring the default tag included. |
| LinkMoves.DeleteProjectShape | internal/db/db.go:1434-1500 | Forgetting a project drops its record, its path and exactly its own rows. |
| LinkDatabase.ScrubIndex | internal/db/db.go:1168-1180 | The loop over an index entry removes the ID, deletes an emptied entry, and refuses an unreadable one. |
| LinkDatabase.Database.MoveLinksTx | internal/db/db.go:600-672 | The loop that rewrites rows and both indexes makes exactly the specified move or reports the entry it could not read. |
| LinkDatabase.Database.SetTag | internal/db/db.go:719-731 | The transaction commits the specified state, or on an error leaves every bucket as it was. |
| LinkDatabase.Database.DeleteTag | internal/db/db.go:748-762 | Likewise; the default tag is refused. |
| LinkDatabase.Database.InsertPackageWithFiles | internal/db/db.go:441-518 | A version and its files are recorded in one transaction, all or nothing. |
| LinkDatabase.Database.InsertFilesTx | internal/db/db.go:2096-2123 | Files take consecutive IDs from one bump of the shared counter. |
| LinkDatabase.Database.DeletePackage | internal/db/db.go:997-1057 | Commits the specified deletion or changes nothing. |
| LinkDatabase.Database.InsertProject | internal/db/db.go:1268-1334 | Registers a path once, refreshing a readable record in place. |
| LinkDatabase.Database.DeleteProject | internal/db/db.go:1434-1500 | Commits the specified deletion or changes nothing. |
| LinkDatabase.Database.InsertLink | internal/db/db.go:1616-1760 | Updates the row already on the build or replaces the one on another build, or changes nothing. |
| LinkDatabase.Database.DeleteLink | internal/db/db.go:1965-2001 | Commits the specified deletion or changes nothing. |
| LinkDatabase.Database.LinksForPackage | internal/db/db.go:1792-1824 | Every row an entry names, or the damage or missing row that hides one. |
| LinkDatabase.Database.LinksForProject | internal/db/db.go:1899-1931 | As above, an ID naming no row being skipped. |
| LinkDatabase.Database.FindPackageByHash | internal/db/db.go:807-823 | The first record in key order of a name and a content hash. |
| Migration.Migrate | internal/db/db.go:273-317 | A newer store is refused, a current one left alone, an older one given the default tag of every indexed, readable record and nothing else. |
| Migration.MigratedIsValid | internal/db/db.go:257-317 | A sound store without tags is sound, tags and name index included, once migrated. |
| ProjectLinks.LinksOfProject | internal/cli/tag.go:101-131 | The loop builds the name-keyed view of the project's rows, or reports the damage that hides one. |
| ProjectLinks.NoRowIsLost | internal/cli/tag.go:101-131 | In an undamaged store that view holds every row of the project under its own name and nothing else. |
| ProjectLinks.HeldRowIsTheView | internal/cli/tag.go:101-131 | The row that pull and remove act on under a name is the one the view gives for it. |
| StoreRuns.ApplyKeepsValid | internal/db/db.go:385-399 | One command keeps indexes exact inverses without duplicates or empty entries, references intact, one row per name, IDs distinct and below the counter, tags and name index coherent. |
| StoreRuns.EveryReachableStateIsValid | internal/db/db.go:456-672 | The same of every state any run of commands reaches. |
| IssuedIDs.EveryIDIsIssuedOnce | internal/db/db.go:2096-2123 | Over any run, file rows too share no ID with each other or with any record, all lie below the counter, the counter never falls, and an ID that comes into use lies at or past where it stood. |
| IssuedIDs.FreedIDsStayFree | internal/db/db.go:2096-2123 | An ID a deletion frees is issued by no later run. |
| StoreRuns.FollowersTrackTheirChannel | internal/db/db.go:133-174 | Over any run without tag deletions and restores, each unpinned link sits on exactly the build its channel names. |
| StoreRuns.DeleteTagDetachesItsFollowers | internal/db/db.go:748-762 | Deleting a tag keeps that true exactly when nothing unpinned follows the tag. |
| StoreRuns.RestoreFollowsLatestOrPins | internal/cli/restore.go:171-176 | A restore keeps it true exactly when it finds no build, the link is pinned, the entry has no hash and so takes the default build, or the default tag names the build restored. |
| AddSpec.ResolvedBuild | internal/cli/add.go:842-880 | A spec resolves by tag, then exact version, then hash prefix, to a retained build of the package it names; a tagged build is the one the tag names, and an ambiguous spec is refused. |
| AddSpec.ResolvesExactly | internal/cli/add.go:842-936 | It resolves exactly when the name or tag is there, one build carries the version or the default tag settles it, or, none carrying it, a prefix of four characters or more is the hash of one build. |
| AddSpec.WhyNothingResolves | internal/cli/add.go:842-936 | What does not resolve finds nothing when only the name was asked for or no build of it is retained, is ambiguous when several builds carry the version, or none the version and several the hash prefix, and is otherwise not in the store. |
| PinSafety.PinningAddPins | internal/cli/add.go:773-775 | An add naming a version or a hash leaves the project pinned to that build. |
| PinSafety.PinsSurviveRuns | internal/cli/pull.go:93-156 | From then on, until the project itself moves it, is forgotten or is judged gone, no run of commands moves the pinned link or collects its build. |
| CommandLaws.PullTracks | internal/cli/pull.go:112-285 | A pull of an unpinned row puts it on the build its channel names, its channel, kind and pin kept and every other row as it was, if and only if it was there already or the lock entry is of another build; a pinned row and one whose channel is no tag stay as they were. |
| CommandLaws.AddTakes | internal/cli/add.go:531-700 | An add that resolves leaves the project one row on the build its spec singles out, of the kind asked for, on the tag named and unpinned or pinned to the version or hash; one that does not resolve changes nothing. |
| CommandLaws.AddFollowsItsChannel | internal/cli/add.go:842-880 | An add by name, or by a tag the name has, leaves one unpinned row following that channel on the build it names. |
| CommandLaws.RestoreTakes | internal/cli/restore.go:157-256 | A restore takes the build of the recorded hash, or without one that of the default tag, with the kind and pin asked for and no channel; where there is none it changes nothing. |
| CommandLaws.RemoveDrops | internal/cli/remove.go:104-130 | A remove takes away the project's row under the name and nothing else. |
| CommandLaws.ForgetDrops | internal/cli/forget.go:12-60 | Forgetting a registered path drops the project, the path and exactly its rows. |
| CommandLaws.SetTagPoints | internal/db/db.go:542-575 | A tag set points at the build, a name without a default tag gets that one too, and no other tag moves; a hash of no build changes nothing. |
| CommandLaws.PublishRecords | internal/db/db.go:441-518 | A publish records the content under one build, the one it had if any, with the version and time published and the files given, in order and numbered in a row, under that build; other builds and their files are as they were. |
| Damage.DamageIsNeverWidened | internal/db/db.go:676-713 | Over any run, every unreadable row and index entry stays as it was, and every entry listing an unreadable row goes on listing it. |
| DamageLimits.ProjectIsForgotten | internal/db/db.go:1434-1500 | In any store a project is forgotten exactly when its entry, every row the entry names that is there, and those rows' build entries can be read. |
| DamageLimits.BuildIsCollected | internal/db/db.go:997-1057 | In any store a build is collected exactly when its entry can be read, names no row twice, and names only rows that are there and can be read, of projects whose entries can be. |
| DamageLimits.HeldRowsAreListed | internal/db/db.go:1899-1931 | A project's rows are listed exactly when no row its entry names is there and unreadable. |
| DamageLimits.TagIsMoved | internal/db/db.go:600-672 | With the projects' entries read, a tag moves exactly when the entry of the build it leaves can be read and, if it names any row, that of the build it goes to; an unreadable row stops nothing and stays, still listed. |
| DamageLimits.LinkIsRecorded | internal/db/db.go:1616-1760 | With the other entries read, a link is recorded exactly when its project's entry can be read, whatever rows and records cannot. |
| DamageLimits.RunGoesThrough | internal/cli/gc.go:69-135 | A gc run goes through exactly when, for every version listed, its entry, every row the entry names and the records of those rows' projects can be read. |
| DamageLimits.SpecIsRefused | internal/cli/add.go:842-880 | A spec is refused for damage exactly when the record its bare name stands for cannot be read, or, where more is asked for and is no tag, when any record cannot. |
| Gc.ScanDecides | internal/cli/gc.go:70-253 | A scan condemns exactly the versions that no present project consumes, no other tag than the default one names and no age limit protects, and gathers exactly the orphaned joins. |
| GcExact.GcIsExact | internal/cli/gc.go:70-253 | A confirmed run whose removals succeed keeps exactly those versions, and every row of a project not judged gone. |
| GcExact.GcDoesExactly | internal/cli/gc.go:70-379 | Any run of an undamaged store, whatever its options, deletes exactly the versions asked for, confirmed, not stuck and kept by no present consumer, no other channel and no update less than the age limit ago, with their files, tags and rows, and exactly the rows asked to be unlinked; a dry run deletes nothing. |
| GcExact.GcIsIdempotent | internal/cli/gc.go:70-379 | A second run with the same verdicts and clock removes nothing. |
| GcExact.DamageStopsTheRun | internal/cli/gc.go:70-130 | A scan that meets a read it cannot make fails, whatever else it found. |
| GcExact.DamagedRowIsMet | internal/db/db.go:1792-1824 | Reading an entry's rows fails exactly when one is missing or unreadable. |
| GcRun.RunGC | internal/cli/gc.go:18-379 | The nested loops carry out exactly the planned deletions, and of an undamaged store exactly those the options ask for and nothing spares; a dry run and a failed read leave the database unchanged, a run whose question is declined every version, file and tag. |
| GcRun.CountLinks | internal/cli/gc.go:712-720 | Counts the planned joins of a version. |
| JsonText.DecodeEncode | internal/pkgjson/pkgjson.go:317-323 | Encoding any string gives a legal literal body that decodes to it. |
| JsonText.EncodedIsSafe | internal/pkgjson/pkgjson.go:317-323 | Encoding writes no control character and none that HTML or a script gives meaning to, and leaves other characters but quotes and backslashes as they are. |
| JsonTree.ParseDocumentExact | internal/pkgjson/pkgjson.go:328-333 | A text parses to a document exactly when it is the print of that legal document, blanks included. |
| JsonSkip.ReadToken | internal/pkgjson/pkgjson.go:403-420 | Stepping over separators finds where the next token starts, and reading ends past its last character. |
| JsonSkip.ValueIsSkipped | internal/pkgjson/pkgjson.go:378-399 | Counting brackets token by token from a value's first one, inside any others, first comes back to where it was at the value's last character. |
| JsonSkip.SkipValue | internal/pkgjson/pkgjson.go:378-399 | The loop returns the offset at which the brackets opened are first all closed. |
| JsonObjects.ReadMember | internal/pkgjson/pkgjson.go:349-368 | A key token, a value token and a skip give exactly the member's span, its value's end included. |
| JsonObjects.ParseObject | internal/pkgjson/pkgjson.go:337-376 | The token loop reads exactly the spans of the object's members in the whole text, or reports that there is no object. |
| JsonObjects.DeletedText | internal/pkgjson/pkgjson.go:198-212 | Cutting at the spans yields the text of the object without that member: the next inherits its indentation, or the last leaves the closing blanks to its predecessor. |
| JsonObjects.InsertedText | internal/pkgjson/pkgjson.go:216-230 | Splicing an entry in yields the text of the object with that member last. |
| JsonObjects.FieldPlace | internal/pkgjson/pkgjson.go:246-252 | Replacing the bytes of a member's value is replacing that value in the document and nothing else. |
| JsonEdits.CountDeleted | internal/pkgjson/pkgjson.go:162-178 | Deleting a member lowers the count of its name by one and of no other. |
| JsonCores.TrimKeepsLast | internal/pkgjson/pkgjson.go:43-49 | Deleting first copies one at a time leaves exactly the last ones, everything else in order. |
| JsonCores.AssignSetsOnce | internal/pkgjson/pkgjson.go:43-49 | The reference meaning of a set: the name once, with the value, every other entry as it was. |
| PackageJson.MemberIndex | internal/pkgjson/pkgjson.go:52-59 | The backward loop finds the last member of a name. |
| PackageJson.Find | internal/pkgjson/pkgjson.go:63-74 | The loop finds the first member of a name and how many carry it. |
| PackageJson.ParsePackageJson | internal/pkgjson/pkgjson.go:328-333 | Rejects exactly the texts that are not one JSON object, saying which way. |
| PackageJson.DependencyField | internal/pkgjson/pkgjson.go:183-194 | The spans of the object the last field of that name holds; nothing when it is absent or holds something else. |
| PackageJson.TrimDeps | internal/pkgjson/pkgjson.go:162-178 | The re-parsing loop ends, and leaves the document with all but the last copies deleted. |
| PackageJson.SetDep | internal/pkgjson/pkgjson.go:78-139 | The text it returns is the print of the document with the entry set, in every branch. |
| PackageJson.RemoveDep | internal/pkgjson/pkgjson.go:143-145 | The text it returns is the print of the document without any copy of the entry. |
| PackageJson.HasDep | internal/pkgjson/pkgjson.go:148-154 | Whether the field holds any copy. |
| PackageJsonLaws.SetMeans | internal/pkgjson/pkgjson.go:78-139 | In every branch the field's entries become what the reference set makes of them, and outside the field every byte is kept. |
| PackageJsonLaws.EntryTakesSiblingIndent | internal/pkgjson/pkgjson.go:234-243 | In an object over several lines the new entry stands on its own line, indented as the member before it. |
| PackageJsonUndo.SetDepMeaning | internal/pkgjson/pkgjson.go:76-139 | The result parses; readers find the entry exactly once with the value set; other entries keep bytes and order; every other top-level member keeps its bytes. |
| PackageJsonUndo.RemoveDepMeaning | internal/pkgjson/pkgjson.go:141-145 | The result parses and holds no copy; other entries keep bytes and order; a text without the entry is returned unchanged. |
| PackageJsonUndo.RemoveUndoesSet | internal/pkgjson/pkgjson.go:198-230 | Removing an entry just set restores the text byte for byte exactly when the field held an object without it that was not an empty one with blanks inside. |
| PackageJsonUndo.LastSetWins | internal/pkgjson/pkgjson.go:78-139 | Setting twice gives what the second set alone gives, byte for byte; so setting is idempotent. |
| PackageJsonUndo.TrailingNewlineKeepsDocument | internal/pkgjson/pkgjson.go:306-314 | The final newline is added once and changes nothing but the blanks after the document. |
| PackageJsonLines.SetKeepsLineEndings | internal/pkgjson/pkgjson.go:296-304 | Setting an entry brings no carriage return into a text without, and no other line break into one that has line breaks, all of the Windows kind. |
| PackageJsonLines.OtherEditsKeepLineEndings | internal/pkgjson/pkgjson.go:306-314 | Nor does removing one, or ending the text in a newline. |
| PackageJsonLines.AddedFieldLayout | internal/pkgjson/pkgjson.go:103-117 | A field added to an object over several lines begins a line indented as the last member, and its entry one indentation of the first member deeper, the brace under its key. |
| PackageJsonLines.FirstEntryLayout | internal/pkgjson/pkgjson.go:216-244 | An entry set in an empty object stands one level deeper than the line the object begins on. |
| PackageJsonLines.IndentIs | internal/pkgjson/pkgjson.go:253-284 | A position's indentation is what precedes it on its line if that is only spaces, tabs and carriage returns. |
| PackageJsonLines.ReplacedEntryText | internal/pkgjson/pkgjson.go:130-134 | Setting an entry held once replaces the bytes of its value and no other. |
| PackageJsonLines.AddedEntryText | internal/pkgjson/pkgjson.go:216-244 | Setting a new entry writes it behind the last, on that one's line if it shares it and else on a line of its own indented alike, and changes no other byte. |
| PackageJsonLines.RemovedEntryText | internal/pkgjson/pkgjson.go:198-212 | Removing an entry held once takes out one stretch: up to the next key, from the end of the entry before, or all between the braces. |
| FilesField.PlainLibraryIsLibrary | internal/pack/pack.go:1544-1572 | What is asked of the glob library can be met: a matcher for literals, ?, * and ** meets it. |
| FilesField.MatchFilesField | internal/pack/pack.go:2205-2400 | The early-returning loop computes the strongest match any entry makes. |
| FilesField.StrongestIsBound | internal/pack/pack.go:2205-2400 | That match is made by some entry and exceeded by none. |
| FilesField.OrderOfEntriesIsFree | internal/pack/pack.go:2205-2400 | It depends only on which entries there are. |
| FilesField.NamingTakesASpelling | internal/pack/pack.go:2280-2400 | An entry names a path only by spelling it or by a glob whose last segment says something of the name. |
| FilesField.SegmentsReachRun | internal/pack/pack.go:1544-1572 | The segment walk decides whether an entry may reach beneath a directory. |
| FilesField.FilesFieldMayReach | internal/pack/pack.go:1523-1540 | Whether any entry may. |
| FilesField.ReachTestIsSound | internal/pack/pack.go:1462-1572 | The reach test never denies a directory at or beneath which the field selects something, for all entries, if and only if the glob library follows its matches: where it matches a whole pattern, matching segment by segment leads to what the pattern selects. |
| FilesField.BraceIsMissed | internal/pack/pack.go:1544-1572 | A library that expands braces does not: an entry such as {**,x}/y matches a file two directories down and the test denies the lower one. |
| FilesFieldLaws.SpellingSelects | internal/pack/pack.go:2205-2260 | An entry that spells a path, with a leading ./ or slash or a trailing slash or none, names it, holds what lies beneath it, and reaches nothing else. |
| Ignore.ApplyIgnorePatterns | internal/pack/pack.go:1896-1946 | The loop carries a verdict to the last line that says anything. |
| Ignore.CoveredStep | internal/pack/pack.go:1737-1756 | A path is covered when it or the directory above it is: the recursion the memo follows. |
| IgnoreLaws.NameLines | internal/pack/pack.go:1896-2040 | A line giving a name excludes whatever has it, wherever, and all beneath the path it gives; a leading slash anchors it; with a bang it takes back the path alone. |
| IgnoreLaws.DirectoryLines | internal/pack/pack.go:1896-1946 | A trailing slash excludes the path and all beneath it, and with a bang takes back the path alone. |
| IgnoreLaws.SubtreeLines | internal/pack/pack.go:2004-2040 | So does a final double star. |
| IgnoreLaws.EndingLines | internal/pack/pack.go:2004-2040 | A star and an ending exclude every name with that ending. |
| IgnoreLaws.LastLineDecides | internal/pack/pack.go:1896-1946 | The last line that says anything of a path decides. |
| IgnoreLaws.LinesAreRelative | internal/pack/pack.go:1619-1700 | An ignore file's lines say of a path in its directory what they say of the path from there on. |
| IgnoreLaws.NamesAreDefaultExcluded | internal/pack/pack.go:434-457 | The default set holds its names and endings in any casing. |
| IgnoreVerdicts.OpenIsGoverned | internal/pack/pack.go:1654-1683 | Where no directory on the way is excluded, a path's verdict is the last word of the ignore files above it, scope by scope. |
| IgnoreVerdicts.LooserKeepsIn | internal/pack/pack.go:1654-1683 | Ignore files that let more in never shut out a path that nothing on the way excludes. |
| IgnoreLoader.Loader.Scopes | internal/pack/pack.go:1619-1637 | Cached scopes are the definition's, and no directory's ignore file is read twice. |
| IgnoreLoader.Loader.Excluded | internal/pack/pack.go:1654-1683 | The memoized answer is the uncached, last-match-wins chain's, a scope in an excluded directory ending it. |
| IgnoreLoader.Loader.DirExcluded | internal/pack/pack.go:1761-1769 | As above for directories; the mutual recursion ends on depth. |
| IgnoreLoader.Loader.AnswerAll | internal/pack/pack.go:1592-1617 | Any questions in any order get the definition's answers, each directory read at most once. |
| IgnoreLoader.DefaultExcludedTree.Covers | internal/pack/pack.go:1737-1756 | The memoized answer: whether the path or a directory above it is default-excluded. |
| PackWalk.Collector.Selects | internal/pack/pack.go:1216-1336 | The whitelist switch in its order: manifest, main, files, default includes. |
| PackWalk.Collector.MaySkip | internal/pack/pack.go:1444-1457 | Whether an unreadable path may be skipped, per mode. |
| PackWalk.Collector.VisitAll | internal/pack/pack.go:909-1353 | The pruned, memoized walk of a directory packs exactly what ships beneath it and fails exactly when it meets something it cannot read and may not skip. |
| PackWalk.CollectFiles | internal/pack/pack.go:909-1360 | The same from the package root, whose own unreadability always fails. |
| PackWalk.PackIsFlat | internal/pack/pack.go:1114-1353 | With nothing unreadable, the packed paths are exactly the regular files the rules select without any walk. |
| PackWalk.HardReservedNeverShips | internal/pack/pack.go:1136-1150 | Nothing lets in a path at or beneath a hard-reserved one. |
| FilesFieldLaws.ListedFilesShip | internal/pack/pack.go:2205-2400 | A file that an entry names, or that lies beneath a directory an entry names or sweeps with * or **, is in the pack unless a name on the way is hard-reserved or default-excluded, the second overridden by spelling the file. |
| FilesFieldLaws.OnlyListedFilesShip | internal/pack/pack.go:2205-2400 | With such entries only, what is packed was listed, or is the manifest, the entry point or one of the files every package ships. |
| FilesFieldLaws.EntryPointShips | internal/pack/pack.go:840-905 | The entry point is packed under any files field unless reserved or default-excluded. |
| FilesFieldLaws.DefaultIncludesShip | internal/pack/pack.go:2760-2787 | So is a file every package ships, unless an ignore file excludes it. |
| FilesFieldLaws.DefaultIncludesByName | internal/pack/pack.go:85-172 | Those are, in any casing and at the root alone, the manifest, read-mes, licences, and exactly fifteen names of change logs. |
| IgnoreLaws.ReservedNamesNeverShip | internal/pack/pack.go:232-372 | A path one of whose names is a version-control, lock, editor or tool name of the reserved list, in any casing, is in no pack. |
| PackLaws.NothingShipsBeneath | internal/pack/pack.go:1408-1457 | The rules that let an unreadable path be skipped let nothing at or beneath it ship. |
| PackLaws.SkippingLosesNothing | internal/pack/pack.go:934-1111 | If a walk that met unreadable paths succeeds, the tree with them readable, whatever they hold, ships the same files under the same ignore files. |
| PackSkips.SkippingLosesExactly | internal/pack/pack.go:934-1111 | With the ignore files revealed too, wherever the tree turns out to have one, it ships the same files if and only if there is a files field, or nothing beneath a directory hiding its ignore file would ship if every hidden one let everything in. |
| PackSkips.HiddenNpmIgnoreLoses | internal/pack/pack.go:1785-1795 | So an npm ignore file that could not be looked up, in a directory the walk descends into, always leaves something to lose. |
| PackSkips.ANegationIsLost | internal/pack/pack.go:1094-1108 | A run that gets there: a directory that can be listed but not entered, whose hidden ignore file re-includes a default-excluded file. |
| PackSkips.RootHidesNothing | internal/pack/pack.go:1094-1108 | The root's own ignore file is never hidden: failing to look it up stops the walk. |
| PackLaws.DefaultExclusionTakesConsent | internal/pack/pack.go:1216-1336 | Under a files field a packed path that is covered is the manifest, or is named by an entry that spells it or matches it with a last segment that is no bare wildcard, or is an always-included root file that a negation in the root's ignore file lets back in. |
| PackLaws.RootIsReincluded | internal/pack/pack.go:1654-1683 | A default-excluded root path is not excluded exactly when the last line of the root's ignore file that says anything of it is a negation. |
| PackLaws.MainIsNoConsent | internal/pack/pack.go:1223-1288 | Naming main does not override the default exclusions. |
| PackManifest.ManifestIsNotBuiltIn | internal/pack/pack.go:1152-1203 | No built-in list matches the manifest, in any casing of the lists. |
| PackManifest.ManifestAlwaysShips | internal/pack/pack.go:1152-1203 | The root manifest ships from every pack that succeeds. |
| HashStream.HashFiles | internal/pack/pack.go:2818-2841 | The digest is taken over the framed fields of the files in path order. |
| HashStream.StreamIsInjective | internal/pack/pack.go:2802-2816 | A stream decodes in one way: no path imitates a record boundary. |
| HashStream.StreamIdentifiesFiles | internal/pack/pack.go:2818-2841 | With distinct paths, two lists give one stream exactly when they hold the same records, in any order. |
| HashStream.StreamIsRead | internal/pack/pack.go:2831-2841 | Reading a stream back, eight little-endian length bytes before each of path, content hash and octal permissions, gives the records in their order. |
| HashStream.LessIsBytewise | internal/pack/pack.go:2822-2829 | The order of paths is byte by byte. |
| Relink.OnlyRecordNameIsDropped | internal/link/manifest.go:383-395 | The linked set is the listed one without the manifest's own name. |
| Relink.ScanLinked | internal/link/manifest.go:328-361 | The scan returns the regular files and counts everything else. |
| Relink.ReusableFiles | internal/link/manifest.go:185-198 | The candidates: recorded with the wanted hash and mode, present, and with a hash at all. |
| Relink.VerifiedReusable | internal/link/manifest.go:290-312 | Of those, the ones whose bytes hash as listed. |
| Relink.UpToDateIsLinked | internal/link/link.go:160-187 | The counting test leaves room for nothing else: an accepted directory holds exactly the listed files, each hashing as listed, and the manifest. |
| Relink.LinkedIsRebuilt | internal/link/link.go:64-78 | Given a store that holds what is listed, a linked directory holds the store's bytes exactly when no file in it collides with its own store copy. |
| Relink.RelinkIsRecognised | internal/link/manifest.go:148-167 | What a link leaves and records is recognised as up to date. |
| Relink.RelinkKeepsWhatIsListedAlike | internal/link/manifest.go:185-325 | Linking other files over a recorded link keeps, of those still as recorded, exactly the ones both list with the same hash and mode. |
| Relink.ForeignRecordKeepsNothing | internal/link/manifest.go:109-146 | A record of another directory or schema keeps nothing. |
| RelinkRun.LinkDir.Swap | internal/link/link.go:392-418 | The rename protocol: every state on the way is safe, and each error comes of its own failures, removes the replacement and leaves the previous tree at its own path or says it is at the retired one. |
| RelinkRun.LinkDir.Populate | internal/link/link.go:220-385 | The built tree holds exactly the listed files, each the one that stood there if it may stay and is carried over and otherwise its store copy; the count is of those carried over, and it fails exactly when some file cannot be had. |
| RelinkRun.LinkDir.WriteManifest | internal/link/manifest.go:148-167 | The record names every file with its hash and mode; failing to write it fails nothing. |
| RelinkRun.LinkDir.Inspect | internal/link/link.go:140-172 | The reuse set and the shortcut's verdict as specified. |
| RelinkRun.LinkDir.Link | internal/link/link.go:106-431 | On success exactly the listed files and at most the manifest, each right; the kept ones are those reusable and carried over, none where no directory stood, and the written ones the rest; it fails exactly when a step it takes does, with the first such step's error, and then removes the replacement; on any failure and at every step the previous or the complete new tree is intact. |
| RelinkRun.LinkDir.LinkSource | internal/link/link.go:441-537 | The same swap for a live link, failing with the error of the first step that fails. |
| RelinkRun.LinkTwice | internal/link/link.go:160-187 | Linking again what was linked and recorded writes nothing. |
| Specifier.LockingKeeps | internal/cli/add.go:604-642 | Saving the lock before package.json is rewritten keeps the invariant of every tracked name, whatever its range. |
| Specifier.ReferencingKeeps | internal/cli/add.go:1103-1121 | Writing the reference keeps the range if and only if it is not empty and the lock or the snapshot holds the name. |
| Specifier.UnlinkingKeeps | internal/cli/remove.go:82-104 | Putting package.json right, and then dropping the lock entry, keeps the range if and only if it is not empty. |
| Specifier.MergingKeeps | internal/cli/retreat.go:481-546 | Moving the lock aside and merging it into an earlier snapshot keeps the invariant of every name. |
| SpecifierRun.Project.Add | internal/cli/add.go:531-660 | Lock first, then package.json; it succeeds exactly when no step fails, and then the files are as specified and the reference, link: or file: as asked, stands in the field asked for or the one the name had and in no other; one that fails leaves the files alone but for the lock entry, which stays when only the package.json write fails. Every state in between keeps the range, unless it is empty and the add rewrites it, which loses it. |
| SpecifierRun.Project.BatchLock | internal/cli/add.go:184-240 | All ranges are read before any is overwritten, a name given twice included, and whether any package could be linked at all. |
| SpecifierRun.Project.WriteReferences | internal/cli/add.go:242-262 | The writes in order; a failed one rolls back only packages this run added, and the name is overwritten exactly when some write of it lands. |
| SpecifierRun.Project.AddBatch | internal/cli/add.go:59-262 | For any list, repeats included, the lock is saved whenever a package could be linked, and a batch loses a range if and only if one of its writes lands and either it is empty, or neither record holds the name, another write fails, and both lock saves go through; otherwise every state keeps it. Other names stay as they were. |
| SpecifierRun.Project.Remove | internal/cli/remove.go:18-145 | package.json before the lock, for one name or all; a name is put right and leaves the lock exactly when it was asked for and no step of its own fails, and others are untouched. Every state keeps the range, unless it is empty and its name is dealt with, which loses it. |
| SpecifierRun.Project.Retreat | internal/cli/retreat.go:181-313 | package.json is put right for exactly the valid names of the lock whose write goes through. It goes through exactly when no step fails; the range is then back in package.json where it stood, and in the snapshot. Every state keeps it, unless it is empty and package.json is rewritten for its name, which loses it. |
| SpecifierRun.Project.StashLock | internal/cli/retreat.go:485-546 | When it goes through the lock is gone and merged into the snapshot, it goes through exactly when no step of it fails, a step that fails leaves the rest undone, and every state keeps what was kept. |
| SpecifierRun.Project.MergeSnapshot | internal/cli/retreat.go:513-530 | The merge loop, an empty original version never displacing a recorded one. |
| SpecifierRun.Project.RestoreOne | internal/cli/restore.go:157-256 | package.json, then the lock, then the snapshot; a name is passed over exactly when one of its own steps fails. |
| SpecifierRun.Project.RestoreNext | internal/cli/restore.go:139-256 | One name of the snapshot: taken out if the lock has it, linked again otherwise. |
| SpecifierRun.Project.Restore | internal/cli/restore.go:60-293 | It goes through exactly when every name of the snapshot is in the lock or none of its own steps fails, and then exactly the names the lock did not have are pointed at the linked copies. Every state keeps the range, and a full restore has it in the lock, with two exceptions. If both records hold the name and the lock has no original version, a full restore keeps it exactly when package.json held it; if it is empty and its name is linked again, a full restore loses it. |
| SpecifierLaws.Session | internal/cli/add.go:604-618 | Over any run of allowed commands with any failures and crashes, the user's range is in package.json, the lock or the snapshot at every point between two writes, given that it is not empty or that no command of the run rewrites its entry. |
| SpecifierLaws.AddThenRemove | internal/cli/remove.go:88-101 | An add followed by a remove, or by a retreat, keeps the range if and only if it is not empty. |
| SpecifierLaws.PureAddThenRemove | internal/cli/remove.go:88-101 | A pure add followed by a remove keeps the range exactly when it is not empty and the lock or the snapshot already had the name. |
| SpecifierLaws.ConsumingExactly | internal/cli/restore.go:144-154 | Dropping a snapshot entry for a name in the lock keeps the invariant exactly when the lock records the range, and keeps the range itself exactly then or when package.json holds it. |
| SpecifierLaws.InterruptedRestoreThenAddLoses | internal/cli/restore.go:139-154 | How a run reaches that loss: a restore killed after its package.json write, an add, a restore; before the last, every state keeps the range if and only if it is not empty. |
| SpecifierLaws.AddKeepsWhatItReads | internal/cli/add.go:1079-1093 | An add keeps a range package.json held exactly when it is not empty, and is the one it reads or one the snapshot has. |
| SpecifierLaws.AddRecords | internal/cli/add.go:1067-1093 | An add records the user's own range in the field it writes, that in the other field if there is none, or what the lock had; a text beginning file:.lnpm/ or link:.lnpm/ is no range of the user's. |
| SpecifierLaws.TwoFieldsKeepOneRange | internal/cli/add.go:1079-1093 | For a name in neither record, add keeps every range package.json held exactly when neither field holds an empty one and the two do not hold different ones. |
| SpecifierLaws.RollingBackAWrittenPackage | internal/cli/add.go:364-374 | Rolling back a new package after its reference was written keeps the range exactly when it is not empty and the snapshot holds the name. |
| SpecifierLaws.NamedOnceIsKept | internal/cli/add.go:242-262 | A batch that gives a name once loses its range exactly when the range is empty and the name's write lands, whatever else fails. |
| SpecifierLaws.NamedTwice | internal/cli/add.go:242-262 | One that gives it twice keeps an empty range if and only if both writes fail, any other if and only if a record already held the name, or both writes fail, or neither. |
| SpecifierText.ReferenceIsRead | internal/cli/add.go:1103-1121 | Reading the text add writes gives the two fields the protocol says, the reference in one and the name gone from the other, and the text ends in a newline. |
| SpecifierText.UnlinkedIsRead | internal/cli/remove.go:181-226 | Reading the text remove and retreat write gives the range back where the name stood, or the name in neither field, and the text ends in a newline. |
| SpecifierLaws.RemoveUndoesAdd | internal/cli/remove.go:181-226 | Removing a package just added restores all three files if and only if the lock did not have it and was no empty file, the field add does not write did not name it, and the one add writes held for it a range add can record, if anything. |

## Left out

- Bucket encoding, file locking, JSON rows and timestamps: buckets are maps, a transaction is all or nothing, and a value that does not decode is `Damaged`. IDs are unbounded; the counter's overflow is not modelled.
- The judgement whether a project directory is gone: the projects judged gone are a parameter of a gc run, and so are the clock, the age limit and the store entries that fail to be removed.
- LinkDatabase.Database.InsertProject: does not model device stamping or the normalisation of a path.
- GcRun.RunGC: does not model the temporary-directory sweep, the prompts and the report; a store entry that cannot be removed is a parameter.
- A pull's relinking, lock updates and skip of live links; its choice of build and the row it repoints are modelled, the version and hash of its lock entry being parameters.
- PackageJsonLines.SetKeepsLineEndings: a text without any line break gets plain newlines, as in the code, so the law for texts of CRLF lines asks for at least one line.
- Listing order: methods walk maps in any order, and the specifications do not depend on it.
- JSON as bytes: texts are sequences of characters, so ill-formed UTF-8 and the nesting limit of the library decoder are outside the model. Of the library decoder only its tokens and offsets are modelled.
- JsonObjects.ParseObject: stated for stretches that parse, which is all its callers give it.
- PackSkips.SkippingLosesExactly: a reader has lines for a directory only where the tree has an ignore file; an ignore file that can be looked up and not read is one the reader has no lines for, before and after.
- FilesField.PlainLibraryIsLibrary: shows that what is asked of the glob library can be met, not that the library meets it.
- The glob library's braces, classes and escapes: any answer is allowed. The results on what a skip loses are stated for a library that follows its matches, which one that expands a brace holding `**` does not (`BraceIsMissed`). Case folding and lower-casing are ASCII.
- Paths are clean, relative and slash-separated, as the walk yields them; cleaning `main` and Windows separators are not modelled.
- PackWalk.CollectFiles: gives paths in walk order; sizes, modes, content hashing of the files, its failures and the warnings are left out, as are the two backstops `Pack` applies afterwards.
- xxhash: the hash of a stream and of a file are uninterpreted functions.
- HashStream.HashFiles: the sort is an insertion sort on paths; the library's sort differs only on equal paths, which a package never has.
- Reflinks, hard links, copies, modes and the two worker passes of a link: a file that may stay is carried over or fails to be, any other comes from the store or fails to, one file at a time. Directory guards, node_modules and the reported link type are left out.
- Relink.ScanLinked: takes a directory's files as one map from paths, where the code recurses over directories.
- RelinkRun.LinkDir.LinkSource: the checks of the source directory come before it and are not modelled.
- RelinkRun.LinkDir.Link: each link takes fresh temporary names, so it starts with nothing at the temporary and retired paths.
- Lock and snapshot entries carry only the original version, and package.json only its two dependency fields as readers see them; the editor's bytes are modelled apart.
- SpecifierRun.Project.AddBatch: linking is sequential, and the writes are in the order of the list.
- SpecifierText.ReferenceIsRead: an entry that is no text reads as present without a range; the code takes a `null` entry for absent when it picks the field.
- SpecifierLaws.Session: a command that is not allowed when it would start, or that would rewrite a spared name, is passed over; hand edits of package.json between commands are not modelled.
- update, install, completion, configuration, hooks, doctor, status, check, name validation, .gitignore editing, workspace specifiers, size and time formatting: networking, shell, user interface or easy members.
