# heroku_release in Dafny

A model of `HerokuRelease::Task`, the Ruby gem's release workflow for Heroku, and of the
configuration it starts with. The rake tasks `push`, `tag`, `log`, `current_release`,
`previous_release`, `pending` and `rollback` are built from five computations:

- the list of release tags taken from `git tag` output;
- the current and the previous release;
- the changelog made from `git tag -n` output;
- the shell quoting of the tag comment;
- the release name made from the UTC clock.

The project is split into these modules:

- `Text` (`text.dfy`): Ruby's `split("\n")`, `strip`, whitespace and the string order that `sort` uses.
- `Sorting` (`sorting.dfy`): an insertion sort, and the proof that a multiset has exactly one ascending arrangement. That is why the model does not depend on which algorithm Ruby's `sort` uses.
- `Releases` (`releases.dfy`): `releases`, `current_release_version` and `previous_release_version`, and what they guarantee about the tags.
- `Changelog` (`changelog.dfy`): `changelog` and `changelog_warning`. The scan with `^\s*(release-\d+-\d+)\s*(.+)$` is modelled with the regular-expression engine's backtracking, not as a split into lines. `\s` also matches line feeds, so a tag with no comment takes the next line as its comment. When only line feeds follow a tag, the engine hands the tag's last digit to `(.+)`.
- `ChangelogListing` (same file): what the scan makes of `git tag -n` output laid out line by line.
- `Quoting` (`quoting.dfy`): `single_quote`, and a reader for `/bin/sh` single-quote syntax that serves as its partner.
- `ReleaseName` (`release_name.dfy`): `get_release_name`, the `strftime` fields written in decimal.
- `HerokuRelease` (`task.dfy`): the configuration, the default configuration and class `Task`.
  - The Ruby methods that act, and those that read `releases` through the memo, are methods of `Task` under their own names: `push`, `tag`, `log`, `current_release`, `previous_release`, `pending`, `rollback`, `remove_tag`, `tag_comment`, `output`, `execute`, `releases`, `current_release_version`, `previous_release_version`, `update_version_file`, `update_changelog` and `commit`.
  - `Task.UpdateFiles` and `Task.TagRelease` have no Ruby method of their own. They are the two halves of `tag`'s body: the block for the configured files, and the tagging and pushes.
  - The methods that only compute are functions in the other modules: `releases` is `Releases.ReleasesOf`, `single_quote` is `Quoting.SingleQuote`, `changelog` is `Changelog.ChangelogText`, `changelog_warning` is `Changelog.Warning`, `write_changelog`'s content is `Changelog.FileContent`, and `get_release_name` is `ReleaseName.ReleaseNameOf`.
  - `git_tags` and `git_tags_with_comments` are the fields `gitTags` and `gitTagsAnnotated` of `Env`, and `config` is the constant field `config` of `Task`.
  - A method appends what it does to the field `log`, a sequence of events: a shell command run (`Run`), a value printed with `puts` (`Say`), a prompt printed with `print` (`Ask`) and a file written (`Write`).
  - `Commands(log)` and `Writes(log)` project the commands and the file writes out of the log.
  - The field `memo` plays the part of `@releases`.
  - What a run can observe is a parameter `Env`: `ENV['COMMENT']`, the line typed on standard input, the clock, and the output of `git tag` and of `git tag -n`.
  - Each rake task's method is proved to append exactly the events of a function of the configuration and `Env`.
- `TaskProperties` (`task_properties.dfy`): what those event sequences guarantee, namely the order of the git commands, where the comment ends up, and that `rollback` runs nothing destructive without a previous release.

The configuration is an immutable value passed to the constructor. `Default` is the gem's own default: the remote `heroku`, prompting on, no version file and no changelog.

`push` runs `git push <remote> master`. It reads neither a branch setting nor `ENV['BRANCH']`, and the model follows the library in this. Some of the gem's descriptions and tests expect `<remote> <branch>:master` instead.

## Model

| member | source | states |
|---|---|---|
| Text.FieldsJoin | lib/heroku_release.rb:124 | the pieces between line feeds, before `split` drops the trailing empty ones, joined back with line feeds give the original text |
| Text.JoinFields | lib/heroku_release.rb:124 | splitting lines joined with line feeds gives back exactly those lines, when none of them contains a line feed |
| Text.Fields | lib/heroku_release.rb:124 | the pieces between line feeds, before `split` drops the trailing empty ones: at least one piece, and no piece contains a line feed |
| Text.Lines | lib/heroku_release.rb:124 | `split("\n")`: no line contains a line feed, the last line is not empty, and a non-empty string is a line exactly when it lies between line feeds of the text |
| Text.DropTrailingEmpty | lib/heroku_release.rb:124 | Ruby's `split` drops only trailing empty fields: the result is a prefix that does not end in an empty string, and everything dropped is empty |
| Text.Strip | lib/heroku_release.rb:109 | `strip` result neither starts nor ends with whitespace or NUL, and it is what is left after removing whitespace from both ends |
| Text.LessTotal | lib/heroku_release.rb:124 | the string order `sort` uses is total: two different strings are ordered one way or the other |
| Text.LessTransitive | lib/heroku_release.rb:124 | the string order is transitive |
| Text.LessEqAntisymmetric | lib/heroku_release.rb:124 | two strings ordered both ways are equal |
| Text.LessAppend | lib/heroku_release.rb:169 | for prefixes of equal length, the order of two concatenations is decided by the prefixes first and then by the rests |
| Sorting.Insert | lib/heroku_release.rb:124 | inserting into an ascending list keeps it ascending and adds exactly the new element |
| Sorting.Sort | lib/heroku_release.rb:124 | the sorted list is ascending |
| Sorting.SortPermutes | lib/heroku_release.rb:124 | the sorted list is a permutation of its input |
| Sorting.SortedUnique | lib/heroku_release.rb:124 | two ascending lists with the same elements are equal, so any correct sort gives this result |
| Releases.SelectReleases | lib/heroku_release.rb:124 | `select`: a line is kept exactly when it is a line of the input starting with `release-`, and nothing is added |
| Releases.SelectedCount | lib/heroku_release.rb:124 | `select` keeps every line starting with `release-` as often as it occurs and drops every other line |
| Releases.LinesCount | lib/heroku_release.rb:124 | dropping trailing empty fields does not change how often a non-empty line occurs |
| Releases.ReleasesOf | lib/heroku_release.rb:123-125 | `releases` is ascending and holds only release lines |
| Releases.ReleasesSelected | lib/heroku_release.rb:123-125 | `releases` is ascending, holds each release line of `git tag` as often as it occurs and no other line, and a line is in it exactly when it is a release line of the output |
| Releases.ReleasesCount | lib/heroku_release.rb:123-125 | how often a line occurs in `releases`: as often as in the output for a release line, never otherwise |
| Releases.ReleaseMember | lib/heroku_release.rb:123-125 | a line is in `releases` if and only if it is a line of the output starting with `release-` |
| Releases.ReleasesDetermined | lib/heroku_release.rb:123-125 | any ascending list with those occurrences is `releases` |
| Releases.Current | lib/heroku_release.rb:127-129 | `last` is present exactly when the list is not empty; it is an entry of the list, and in an ascending list no entry is above it |
| Releases.CurrentIsLatest | lib/heroku_release.rb:127-129 | there is a current release exactly when the output has a release line; it is one of them and not below any other |
| Releases.Previous | lib/heroku_release.rb:131-137 | `releases[-2]` is present exactly when there are at least two releases; it is an entry before the last, and in an ascending list it is not above the last and not below any entry before it |
| Releases.PreviousStrictlyOlder | lib/heroku_release.rb:131-137 | when `git tag` lists each tag once, the previous release is strictly older than the current one |
| Releases.OthersBelowPrevious | lib/heroku_release.rb:131-137 | every release line of the output other than the current release is not above the previous release |
| Releases.RollbackRestoresPrevious | lib/heroku_release.rb:77-99 | once the current tag is removed and no other release tag changes, the previous release becomes the current one |
| Quoting.SingleQuote | lib/heroku_release.rb:101-103 | each `'` grows the text by three characters and nothing else changes length; a text with no `'` is returned unchanged |
| Quoting.SingleQuoteConcat | lib/heroku_release.rb:101-103 | the replacement works character by character: quoting a concatenation is the concatenation of the quoted parts |
| Quoting.UnescapeSingleQuote | lib/heroku_release.rb:101-103 | replacing every `'\''` back with `'` recovers the input |
| Quoting.QuotedWord | lib/heroku_release.rb:101-103 | the quoted text placed between single quotes is read by the shell as one word whose value is the original text |
| Quoting.QuotedWordWithPrefix | lib/heroku_release.rb:150 | a prefix without quotes may share the quotes: the word reads as the prefix followed by the original text |
| ReleaseName.Decimal | lib/heroku_release.rb:169 | a `strftime` field is all digits and at least as wide as its padding |
| ReleaseName.DecimalRoundTrip | lib/heroku_release.rb:169 | reading a padded decimal field gives back the number |
| ReleaseName.DecimalWidth | lib/heroku_release.rb:169 | a number below 10^w is written with exactly w digits |
| ReleaseName.DecimalOrder | lib/heroku_release.rb:169 | fields of the same width are ordered as strings exactly as their numbers are ordered |
| ReleaseName.ReleaseNameOf | lib/heroku_release.rb:168-170 | a release name is a release line for `releases`, matches `release-\d+-\d+` for the changelog, and contains no `'`, so it needs no quoting |
| ReleaseName.NameShape | lib/heroku_release.rb:168-170 | for years 0 to 9999 a release name is 23 characters with its dash at position 16: 8 digits, a dash, 6 digits |
| ReleaseName.NameOrder | lib/heroku_release.rb:168-170 | for years 0 to 9999, one release name is below another exactly when its time is earlier |
| ReleaseName.NameInjective | lib/heroku_release.rb:168-170 | two different times in that range give different release names |
| ReleaseName.FiveDigitYearSortsFirst | lib/heroku_release.rb:169 | a name from year 10000 sorts below a name from year 9999 although its time is later |
| ReleaseName.NewReleaseIsCurrent | lib/heroku_release.rb:35-55 | a new tag named after a time later than every existing release becomes the current release |
| Changelog.MatchHere | lib/heroku_release.rb:163 | one attempt of the pattern at a line start: a match spans at least one character and stays inside the text, so the scan always moves on |
| Changelog.MatchShaped | lib/heroku_release.rb:163 | a match of the pattern yields a tag of the form `release-<digits>-<digits>` and a non-empty one-line comment |
| Changelog.ScanFrom | lib/heroku_release.rb:163 | `scan` from a position: there are never more entries than characters left; the shape of each entry is stated by Changelog.ScanShaped, and the entries of a listing by ChangelogListing.ScanListing |
| Changelog.Scan | lib/heroku_release.rb:163 | every entry `scan` returns is a tag `release-<digits>-<digits>` with a non-empty one-line comment |
| Changelog.ScanShaped | lib/heroku_release.rb:163 | every entry `scan` finds has that shape |
| Changelog.SkipLine | lib/heroku_release.rb:163 | once the scan is past a line start, it finds nothing more before the next line feed |
| Changelog.TrailingTagGivesBackDigit | lib/heroku_release.rb:163 | `release-12-34` followed only by a line feed scans as the tag `release-12-3` with the comment `4` |
| Changelog.TrailingShortTagUnmatched | lib/heroku_release.rb:163 | `release-12-3` followed only by a line feed is not matched at all |
| Changelog.Render | lib/heroku_release.rb:163-165 | `map { ... }.join`: each entry takes at least six characters; what the text holds and in which order is stated by Changelog.RenderConcat and Changelog.NewestFirst |
| Changelog.Reverse | lib/heroku_release.rb:163 | `reverse`: the same length, with entry i taken from the other end |
| Changelog.RenderConcat | lib/heroku_release.rb:163-165 | the blocks of two entry lists joined are the two texts joined |
| Changelog.ReverseConcat | lib/heroku_release.rb:163 | reversing joined lists puts the reversed second list first |
| Changelog.NewestFirst | lib/heroku_release.rb:162-166 | entries listed later appear earlier in the changelog |
| Changelog.ChangelogText | lib/heroku_release.rb:162-166 | `changelog` is empty exactly when nothing matches |
| Changelog.FileContent | lib/heroku_release.rb:154-160 | the changelog file always starts with the warning `Changelog.Warning`, and is the warning alone exactly when nothing matches |
| ChangelogListing.MatchAnnotated | lib/heroku_release.rb:163 | a listing line `<indent><tag><sep><comment>` matches with exactly that tag and comment and ends at the line's end |
| ChangelogListing.MatchOther | lib/heroku_release.rb:163 | a line whose visible text does not start with `release-` does not match |
| ChangelogListing.ScanAnnotatedLine | lib/heroku_release.rb:163 | the scan reads a release line as its entry and goes on with the next line |
| ChangelogListing.ScanOtherLine | lib/heroku_release.rb:163 | the scan skips a line of another tag |
| ChangelogListing.ScanListing | lib/heroku_release.rb:163 | on `git tag -n` output laid out line by line, each release line with its own indentation and its own padding before the comment, `scan` gives exactly the release entries in listing order |
| ChangelogListing.AnnotationsConcat | lib/heroku_release.rb:163 | the entries of a joined listing are the entries of its parts joined |
| ChangelogListing.ChangelogOfListing | lib/heroku_release.rb:162-166 | the changelog of such a listing is its release entries rendered newest first, and a release appended to the listing puts its block in front |
| HerokuRelease.Commands | lib/heroku_release.rb:119-121 | a log runs no more commands than it has events; which commands it runs is stated by HerokuRelease.CommandsMembers |
| HerokuRelease.CommandsMembers | lib/heroku_release.rb:119-121 | a command is among the commands of a log exactly when the log runs it |
| HerokuRelease.WritesMembers | lib/heroku_release.rb:139-156 | a path and content are among the writes of a log exactly when the log writes that content to that path |
| HerokuRelease.CommandsConcat | lib/heroku_release.rb:119-121 | projecting a joined log gives the joined commands and the joined writes |
| HerokuRelease.CommentOf | lib/heroku_release.rb:105-113 | `COMMENT` wins when set; otherwise, with prompting on, the typed line stripped, and with prompting off, `Tagged release`; there is no comment exactly when `COMMENT` is unset, prompting is on and standard input has ended |
| HerokuRelease.PushEvents | lib/heroku_release.rb:30-33 | `push` runs exactly one command, `git push <remote> master`, and writes nothing |
| HerokuRelease.TagEvents | lib/heroku_release.rb:35-55 | `tag` is only the prompt exactly when no comment can be had; otherwise its last three events are the tag command with the quoted comment, `git push --tags origin` and `git push --tags <remote>` |
| HerokuRelease.PendingCommand | lib/heroku_release.rb:73-75 | `pending` shows `git log <current>..HEAD` where the current release is not below any release line, or `git log ..HEAD` when there is no release |
| HerokuRelease.RollbackEvents | lib/heroku_release.rb:77-99 | `rollback` only prints, and runs nothing, exactly when there is no previous release |
| HerokuRelease.Task.constructor | lib/heroku_release.rb:180-182 | a new task reads the given configuration and environment and has done nothing yet |
| HerokuRelease.Task.Output | lib/heroku_release.rb:115-117 | `output` appends one printed value |
| HerokuRelease.Task.Execute | lib/heroku_release.rb:119-121 | `execute` appends one command |
| HerokuRelease.Task.Releases | lib/heroku_release.rb:123-125 | `releases` returns the release list of `git tag`, remembers it, and leaves the log unchanged |
| HerokuRelease.Task.CurrentReleaseVersion | lib/heroku_release.rb:127-129 | returns the last release, or nothing when there is none |
| HerokuRelease.Task.PreviousReleaseVersion | lib/heroku_release.rb:131-137 | returns the second to last release, or nothing when there are fewer than two |
| HerokuRelease.Task.Push | lib/heroku_release.rb:30-33 | `push` announces the deploy and runs `git push <remote> master` |
| HerokuRelease.Task.TagComment | lib/heroku_release.rb:105-113 | returns the comment chosen as `CommentOf` says, printing the prompt exactly when it is asked for |
| HerokuRelease.Task.UpdateVersionFile | lib/heroku_release.rb:139-142 | writes the release name into the version file and then adds it |
| HerokuRelease.Task.UpdateChangelog | lib/heroku_release.rb:144-160 | writes the warning and the changelog into the changelog file and then adds it |
| HerokuRelease.Task.Commit | lib/heroku_release.rb:149-152 | commits with `<name>: <quoted comment>` and then pushes to origin |
| HerokuRelease.Task.UpdateFiles | lib/heroku_release.rb:39-49 | runs the version file step and the changelog step for the configured files, then the commit |
| HerokuRelease.Task.TagRelease | lib/heroku_release.rb:51-54 | announces the tag, tags, and pushes the tags to origin and then to the remote |
| HerokuRelease.Task.Tag | lib/heroku_release.rb:35-55 | `tag` completes exactly when a comment is obtained, and appends the events of `TagEvents` |
| HerokuRelease.Task.Log | lib/heroku_release.rb:57-59 | `log` prints a line feed followed by the changelog |
| HerokuRelease.Task.CurrentRelease | lib/heroku_release.rb:61-63 | prints the current release, or an empty line when there is none |
| HerokuRelease.Task.PreviousRelease | lib/heroku_release.rb:65-71 | prints the previous release, or `no previous release found` |
| HerokuRelease.Task.Pending | lib/heroku_release.rb:73-75 | runs `git log <current>..HEAD` |
| HerokuRelease.Task.RemoveTag | lib/heroku_release.rb:95-99 | deletes the tag locally, on the remote and on origin, in that order |
| HerokuRelease.Task.Rollback | lib/heroku_release.rb:77-91 | reads both releases before anything runs and appends the events of `RollbackEvents` |
| TaskProperties.VersionFileStepProjections | lib/heroku_release.rb:40-43 | the version file step runs only `git add <path>` and writes only the release name, and only when the path is set |
| TaskProperties.ChangelogStepProjections | lib/heroku_release.rb:44-47 | the changelog step runs only `git add <path>` and writes only the warning plus the changelog, and only when the path is set |
| TaskProperties.FileEventsProjections | lib/heroku_release.rb:39-49 | with a file configured: the `git add` commands of the configured files, then the commit, then the push to origin; with none configured: no command and no write |
| TaskProperties.TagCommandOrder | lib/heroku_release.rb:35-55 | with a comment, `tag` runs the file commands first, then `git tag -a`, `git push --tags origin` and `git push --tags <remote>` in that order, and writes only the configured files |
| TaskProperties.TagAbortsWithoutComment | lib/heroku_release.rb:35-37 | when standard input ends at the prompt, `tag` only prompts: no command and no write; with a comment it always runs the tag command |
| TaskProperties.TagCommentReachesGit | lib/heroku_release.rb:52 | the `-m` argument of `git tag`, once the shell has read it, is exactly the comment, quotes included |
| TaskProperties.CommitCommentReachesGit | lib/heroku_release.rb:150 | the shell reads the commit message as the release name, `: ` and the comment, quotes included |
| TaskProperties.DefaultTag | lib/heroku_release.rb:4-7 | with the default configuration `HerokuRelease.Default` (remote `heroku`, prompting on, no files) and `COMMENT` set, `tag` runs no commit, writes nothing, does not prompt, and pushes the tags to `heroku` |
| TaskProperties.RollbackCommands | lib/heroku_release.rb:77-99 | with a previous release, `rollback` runs exactly the force push of the previous release and then the three deletions of the current tag; the current tag is the latest and the previous one is the latest of the rest |
| TaskProperties.RollbackRefused | lib/heroku_release.rb:87-90 | without a previous release, `rollback` prints exactly `No release tags found - cannot do rollback` and then the release list, which has at most one element, and runs no command |

## Left out

- The command output is not modelled. `execute` runs a command through backticks and prints its stripped output; the model records only the command, as a `Run` event. The commands' exit status is not checked by the gem either.
- The backtick calls in `git_tags` and `git_tags_with_comments` are not modelled; their output is the parameter `Env`.
- `puts`, `print` and `$stdin.gets` are not modelled as console I/O. They are `Say` and `Ask` events, and the typed line is a parameter.
- `File.open` is not modelled; each file write is a `Write` event with its path and content.
- `Time.now.utc` and `ENV` are parameters. The clock is a broken-down UTC time with natural-number fields, so negative years are not modelled.
- The global `@@config` and its setter are not modelled: the configuration is an immutable value given to the constructor.
- `Task.tasks`, the table of task names and descriptions (lib/heroku_release.rb:18-28), is not modelled. It holds constants only, nothing in `lib/heroku_release.rb` reads it, and the gem's tests only check that its keys are the public methods of `Task`.
- Exceptions other than the end of standard input at the comment prompt are not modelled. That case ends `tag` after the prompt.
- Strings are sequences of characters. Ruby orders strings by their UTF-8 bytes, which gives the same order as by code points. Invalid encodings are not modelled.
- `Text.IsSpace` is the ASCII set that `\s` matches: space, tab, line feed, vertical tab, form feed and carriage return. `Text.IsStripSpace` adds NUL, which `strip` removes.
- ReleaseName.NameOrder: stated only for years up to 9999. Beyond that the order breaks, as ReleaseName.FiveDigitYearSortsFirst shows.
- Releases.PreviousStrictlyOlder: assumes `git tag` lists each tag once. Without that assumption only "not above" holds, which Releases.Previous states.
- Releases.RollbackRestoresPrevious: it is a statement about the tags after the deletions succeed. Whether the remote deletions succeed is git's behaviour, not the gem's.
- ChangelogListing.ScanListing: stated only for listings of two kinds of line.
  - A release line must carry a one-line comment starting with a visible character. Its indentation and its padding before the comment may be any blanks, and may differ from line to line, as they do when `git tag -n` pads tags of different lengths; the padding must not be empty.
  - Any other line must be non-blank and its visible text must not begin with `release-`.
  - So the lemma says nothing about blank lines, about release tags without a comment, or about other tags whose names begin with `release-` (such as `release-notes`, which `releases` keeps).
  - The scan of such text is still modelled by `Changelog.Scan` itself; Changelog.TrailingTagGivesBackDigit shows one such case.
- The changelog written by `tag` is made from the `git tag -n` output read before the new tag exists, so it lacks the release being tagged. The model keeps this order.
