# mmetl Slack core, modelled in Dafny

This project models the core of the Slack-to-Mattermost converter mmetl:

- **Merging Slack exports** (`services/slack/merge.go`). Several
  independently captured exports of one workspace are folded left to right
  into one. Channels, users and posts are deduplicated by id, and
  non-reconcilable conflicts are rejected.
- **Transform to the intermediate model** (`services/slack/intermediate.go`):
  - user and channel overrides, and record sanitisation;
  - the channel rules: dropping, demotion, internal-only renaming;
  - the membership passes;
  - thread assembly, placeholder users, reactions and emoji-name conversion.
- **The timestamp normaliser**, as pinned down by the test tables in
  `services/slack/export_test.go`.

Modules:

| module | file | contents |
|---|---|---|
| `Wrappers` | wrappers.dfy | `Option`, `Result` |
| `Text` | text.dfy | `strings.Trim`, ASCII `strings.ToLower`, `strings.TrimSuffix`, `strings.Join`, UTF-8 byte length, `sort.Strings` (insertion sort, proved a sorting permutation) |
| `ZipExtra` | zip_extra.dfy | `parseZipExtraFields`, `sliceEquals`, `zipExtraCanBeIgnored`. The records are the ZIP "extra field" records of section 4.5.1 of the PKWARE .ZIP File Format Specification (APPNOTE.TXT); id 0x5455 is the extended-timestamp record of its section 4.6.1 |
| `Export` | export.dfy | the parsed Slack export entities |
| `MergeWith` | merge_with.dfy | `mergeSlicesWith`, `mergeMapsWith`, `cloneMap` |
| `Merge` | merge.dfy | the reconcilers `mergeChannel`, `mergeUser`, `mergePost` and `mergeZipFile`, and `MergeSlackExports` |
| `Timestamp`, `TimestampExamples` | timestamp.dfy, timestamp_examples.dfy | exact decimal-seconds conversion and one lemma per test-table row |
| `Emoji` | emoji.dfy | `SlackConvertEmojiName` |
| `TransformSpec` | transform_spec.dfy | value-level meaning of the transform |
| `Transform` | intermediate.dfy | the classes `IntermediateUser`, `IntermediateChannel`, `IntermediatePost`, `Intermediate`, `Transformer`, and the imperative passes, proved against `TransformSpec` |

Where the source loops, the model loops too:
- `mergeSlicesWith`, `mergeMapsWith`, `parseZipExtraFields` and `MergeSlackExports`;
- `TransformUsers` and `TransformChannels`, and the membership passes;
- `AddPostToThreads` and `SlackConvertReactions`.

Each such loop is a `method` whose `ensures` ties its result or its new state to a specification function, and the properties are proved about that function. Most of these functions are recursive folds over the input; the one for `mergeMapsWith` is a map comprehension, `MergeWith.MergeMaps`. The timestamp loop of `AddPostToThreads`, `Transform.FirstFree`, is specified directly: its result is the first value at or after the start that is not taken.

Objects the source updates in place are classes with `modifies` clauses (users, channels, posts, the intermediate store). The Go maps they live in are `map` fields.

Calls into code that is not part of this model become parameters:
- the Mattermost limits (`model.ChannelNameMaxLength` and the others) are a `Limits` value;
- `isValidChannelNameCharacters` is a `NameCheck` predicate;
- `model.NewId` is an injected id source, `IdSource`: `NewIdAt(n)` is the n-th id drawn;
- `postOriginalEquivalent` (JSON comparison) is an `Equivalence` function that may fail.

Two behaviours of the code are easy to miss, and the model keeps both:
- A `"-"` user override clears `FirstName`, `LastName` and `Position` only. For `Username`, `Email` and `Password` the `"-"` is copied into the field as it is (`services/slack/intermediate.go:177-203`).
- Merging an export with identical copies of itself gives that export back only under `Merge.SelfMergeable`:
  - ids within each list must be distinct, because repeated ids in one list are collapsed;
  - every upload must have a known CRC32, because `mergeZipFile` refuses a CRC32 of 0 (`services/slack/merge.go:289-291`).

  `Merge.MergeAllCopies` proves the law under this condition.

## Model

| member | source | states |
|---|---|---|
| Text.TrimLeftShape | services/slack/intermediate.go:361 | `strings.Trim` with cutset "_-", left half: the result is a suffix of the input; everything cut is '_' or '-'; the result does not start with one |
| Text.TrimRightShape | services/slack/intermediate.go:361 | right half: the result is a prefix; everything cut is in the cutset; the result does not end with one |
| Text.TrimShape | services/slack/intermediate.go:46 | the trimmed name is a slice of the input that neither starts nor ends with '_' or '-' |
| Text.TrimIdempotent | services/slack/intermediate.go:46 | trimming twice is trimming once |
| Text.LowerShape | services/slack/intermediate.go:364 | `strings.ToLower` keeps the length and lower-cases each character |
| Text.TrimSuffix | services/slack/intermediate.go:713 | `strings.TrimSuffix` of a present suffix: result followed by the suffix is the input |
| Text.Utf8LenAtLeastRunes | services/slack/intermediate.go:47 | a name's byte length is at least its rune count |
| Text.Utf8LenOne | services/slack/intermediate.go:51 | `len(name) == 1` exactly when the name is one ASCII character |
| Text.BytePrefix | services/slack/intermediate.go:47-50 | the cut to n bytes, in whole runes: a prefix of the name of at most n bytes, and the whole name when it fits (differs from Go when the cut falls inside a rune, see "Left out") |
| Text.BytePrefixOnBoundary | services/slack/intermediate.go:47-50 | when the first k runes take exactly n bytes, the cut is those k runes, which is Go's `s[0:n]` byte for byte |
| Text.BytePrefixAscii | services/slack/intermediate.go:47-50 | on an ASCII handle the cut is exactly Go's `s[0:n]`: the first n characters, or the whole handle |
| Text.LexLeTotal | services/slack/intermediate.go:374 | the string order `sort.Strings` uses is total |
| Text.LexLeAntisymmetric | services/slack/intermediate.go:374 | and antisymmetric |
| Text.LexLeTransitive | services/slack/intermediate.go:374 | and transitive |
| Text.Insert | services/slack/intermediate.go:374 | inserting into a sorted list keeps it sorted and adds exactly one element |
| Text.SortStrings | services/slack/intermediate.go:374 | `sort.Strings`: output sorted and a permutation of the input |
| Text.SortedUnique | services/slack/merge.go:176-182 | two sorted lists with the same elements are equal |
| Text.SortedEqualIffSameMultiset | services/slack/merge.go:176-182 | member lists are equal after sorting iff they are equal as multisets |
| ZipExtra.ParseZipExtraFields | services/slack/merge.go:334-349 | the loop computes the recursive parse `Parse` |
| ZipExtra.ParseStep | services/slack/merge.go:337-343 | one record: 2-byte LE id, 2-byte LE size, then size bytes, followed by the parse of the rest |
| ZipExtra.ParseEmpty | services/slack/merge.go:334-349 | the empty blob parses to no records |
| ZipExtra.ParseOversized | services/slack/merge.go:339-341 | a declared size beyond the remaining bytes is an error naming both numbers |
| ZipExtra.ParseTrailingBytes | services/slack/merge.go:345-347 | well-formed records followed by 1 to 3 bytes fail with those leftover bytes |
| ZipExtra.ParseSerialize | services/slack/merge.go:334-349 | serialising well-formed records and parsing gives the records back |
| ZipExtra.SerializeParse | services/slack/merge.go:334-349 | on success, re-serialising the records reproduces the input exactly |
| ZipExtra.PrependTwice | services/slack/merge.go:342 | appending parsed records in two steps is appending them at once |
| ZipExtra.SliceEquals | services/slack/merge.go:317-327 | `sliceEquals` is true iff the byte sequences are equal |
| ZipExtra.ZipExtraCanBeIgnored | services/slack/merge.go:351-364 | true iff every record id is 0x5455 (so true on no records) |
| MergeWith.MergeSlicesWith | services/slack/merge.go:114-135 | the nested loop computes the fold `MergeSlices` over a ++ b |
| MergeWith.TableSnoc | services/slack/merge.go:117-127 | one more item merges with the stored value of its id, or is stored |
| MergeWith.FirstSeenIds | services/slack/merge.go:131-133 | one output slot per distinct id, and no id twice |
| MergeWith.TableKeys | services/slack/merge.go:114-135 | on success the table's keys are exactly the ids of the input |
| MergeWith.TableErrExtends | services/slack/merge.go:121-123 | the first error aborts the whole merge |
| MergeWith.TableIds | services/slack/merge.go:119-127 | with an id-preserving merge every table entry is stored under its own id |
| MergeWith.MergeSlicesIds | services/slack/merge.go:114-135 | on success the result has distinct ids and its id set is the id set of a ++ b |
| MergeWith.TableDistinct | services/slack/merge.go:114-135 | inputs with distinct ids never call merge and are stored as given |
| MergeWith.MergeSlicesDistinct | services/slack/merge.go:114-135 | slices with distinct ids merge to their concatenation |
| MergeWith.TableStable | services/slack/merge.go:119-125 | items that merge into their stored value leave the table unchanged |
| MergeWith.MergeSlicesSelf | services/slack/merge.go:114-135 | a slice of distinct ids whose items self-merge merges with itself to itself |
| MergeWith.FirstSeenFirst | services/slack/merge.go:131-133 | each output slot is the id of some first occurrence |
| MergeWith.TableKeepsFirst | services/slack/merge.go:119-125 | with a merge that keeps its first argument, each id's entry is its first occurrence |
| MergeWith.MergeSlicesKeepsFirst | services/slack/merge.go:114-135 | so every output element is the first input element with its id |
| MergeWith.TableErrFromMerge | services/slack/merge.go:120-123 | a failure is the error of some merge call on an input item |
| MergeWith.MergeSlicesErr | services/slack/merge.go:120-123 | the error returned is one that merge returned for an element of a ++ b |
| MergeWith.CloneMap | services/slack/merge.go:100-106 | the clone equals the map |
| MergeWith.MergeMapsWith | services/slack/merge.go:140-154 | succeeds iff every shared key merges; then equals `MergeMaps`; an error is the merge error of a shared key |
| MergeWith.MergeMapsContents | services/slack/merge.go:140-154 | keys are keys(a) ∪ keys(b); keys of one side keep their value; shared keys get merge(a[k], b[k]) |
| MergeWith.MergeMapsDisjoint | services/slack/merge.go:140-154 | disjoint maps merge to their union |
| MergeWith.MergeMapsSelf | services/slack/merge.go:140-154 | a map whose values self-merge merges with itself to itself |
| Merge.MergeChannel | services/slack/merge.go:161-196 | succeeds iff Id, Name, Creator, Purpose, Topic, Type agree and members agree as multisets; returns a; an error names a differing field |
| Merge.MergeChannelsResult | services/slack/merge.go:158-160 | merged channels have distinct ids, cover both id sets, each element a first occurrence; failures are channel conflicts |
| Merge.MergeUser | services/slack/merge.go:203-218 | identical users give a; otherwise succeeds iff equal once an empty email is filled from the other; the email is filled |
| Merge.MergeUsersResult | services/slack/merge.go:200-202 | merged users have distinct ids covering both id sets; failures are user conflicts |
| Merge.MergePost | services/slack/merge.go:228-245 | succeeds iff equal apart from Original and Original equivalent; returns a; unequal posts and unreadable JSON give their errors |
| Merge.MergePostSliceResult | services/slack/merge.go:225-227 | merged post lists have distinct timestamps covering both, each element a first occurrence |
| Merge.PostSliceErr | services/slack/merge.go:228-245 | a post-list failure is an unequal post, inequivalent JSON, or unreadable JSON |
| Merge.MergeZipFile | services/slack/merge.go:281-315 | succeeds iff `ZipFilesAgree`; returns a; a CRC32 of 0 fails; an unreadable extra blob is reported for its file |
| Merge.MergeZipFileTimestampsOnly | services/slack/merge.go:298-310 | blobs holding only extended-timestamp records may differ |
| Merge.MergeZipFileOtherRecord | services/slack/merge.go:307-309 | differing blobs where one holds another record id fail |
| Merge.MergeAllSnoc | services/slack/merge.go:27-84 | the fold over one more export merges it into the fold so far |
| Merge.MergeAllNoneExtends | services/slack/merge.go:45-83 | once a merge fails, the whole fold fails |
| Merge.MergeInto | services/slack/merge.go:41-83 | one pass: team names must match, then the eight collections merge in order; result equals `MergePair`; errors are never "no exports" |
| Merge.MergeSlackExports | services/slack/merge.go:18-86 | empty list is the only "no exports" error; one export is returned as is; otherwise the result is the left fold `MergeAll`; success implies one team name kept from the first export; a team-name error names the first team and a differing one |
| Merge.MergeNext | services/slack/merge.go:40-83 | loop body: export i merged into the fold of the exports before it, or the whole fold fails |
| Merge.MergeAllDone | services/slack/merge.go:27-86 | a completed loop holds the fold of all exports, which share the first team name |
| Merge.MergeAllStep | services/slack/merge.go:40-83 | the fold of the first i + 1 exports is the pair merge of the fold of the first i with export i |
| Merge.MergePairTeamName | services/slack/merge.go:41-43 | a merged pair has equal team names and keeps it |
| Merge.MergePairCoverage | services/slack/merge.go:45-83 | a merged pair's channels and users have distinct ids covering both sides; post and upload keys are the union |
| Merge.MergeAllTeamName | services/slack/merge.go:27-43 | a successful fold keeps the first team name and all team names are equal |
| Merge.MergeAllLast | services/slack/merge.go:27-84 | a successful fold of n exports is the fold of n - 1 merged with the last |
| Merge.MergeAllChannels | services/slack/merge.go:45-48 | the merged channels have distinct ids, exactly the ids of all exports |
| Merge.MergeAllUsers | services/slack/merge.go:70-73 | the merged users have distinct ids, exactly the ids of all exports |
| Merge.MergeAllMaps | services/slack/merge.go:75-83 | merged post directories and upload paths are the unions over all exports |
| Merge.ChannelsSelf | services/slack/merge.go:158-160 | a channel list with distinct ids merges with itself to itself |
| Merge.MergePairSelf | services/slack/merge.go:40-83 | a self-mergeable export merged with itself is itself |
| Merge.PostsSelf | services/slack/merge.go:222-245 | post maps with distinct timestamps and self-equivalent JSON merge with themselves to themselves |
| Merge.UploadsSelf | services/slack/merge.go:278-315 | uploads with known CRC32 merge with themselves to themselves |
| Merge.MergeAllCopies | services/slack/merge.go:18-86 | folding copies of one self-mergeable export gives that export |
| Timestamp.DotIndex | services/slack/export_test.go:36-39 | the position of the first '.', or none |
| Timestamp.ParseDecimal | services/slack/export_test.go:16-39 | accepts digits, optionally '.' and digits; an all-digit string is whole seconds |
| Timestamp.RoundDiv | services/slack/export_test.go:26-34 | division rounding half up |
| Timestamp.Scale | services/slack/export_test.go:26-64 | value × 10^e, rounded half up |
| Timestamp.RoundsToUnique | services/slack/export_test.go:26-34 | the half-up rounding of a quotient is unique |
| Timestamp.RoundsToExact | services/slack/export_test.go:21-24 | exact quotients are not rounded |
| Timestamp.ScaleExact | services/slack/export_test.go:97-130 | up to e fractional digits scale exactly: zero-padded digits |
| Timestamp.IntegerSeconds | services/slack/export_test.go:21-24 | whole seconds scale exactly |
| Timestamp.ConvertInvalid | services/slack/export_test.go:16-19 | an unparsable string gives the sentinel 1 |
| Timestamp.RoundThousands | services/slack/export_test.go:26-34 | milliseconds are microseconds rounded half up to thousands |
| Timestamp.MillisFromMicros | services/slack/export_test.go:26-64 | for up to 6 fractional digits, ms = (µs + 500) / 1000 |
| TimestampExamples.MillisInvalid | services/slack/export_test.go:16-19 | "asd" → 1 ms |
| TimestampExamples.MicrosInvalid | services/slack/export_test.go:82-85 | "asd" → 1 µs |
| TimestampExamples.MillisInteger | services/slack/export_test.go:21-24 | "1549307811" → 1549307811000 ms |
| TimestampExamples.MicrosInteger | services/slack/export_test.go:87-90 | "1549307811" → 1549307811000000 µs |
| TimestampExamples.MillisRoundingDown | services/slack/export_test.go:26-29 | ".074100" rounds down to …074 |
| TimestampExamples.MicrosRoundingDown | services/slack/export_test.go:92-95 | ".074100" is …074100 µs |
| TimestampExamples.MillisRoundingUp | services/slack/export_test.go:31-34 | ".074500" rounds up to …075 |
| TimestampExamples.MicrosRoundingUp | services/slack/export_test.go:97-100 | ".074500" is …074500 µs |
| TimestampExamples.MillisZeroDecimals | services/slack/export_test.go:36-39 | a trailing "." is zero fraction in ms |
| TimestampExamples.MicrosZeroDecimals | services/slack/export_test.go:102-105 | a trailing "." is zero fraction in µs |
| TimestampExamples.MillisOneDecimal | services/slack/export_test.go:41-44 | ".1" → …100 ms |
| TimestampExamples.MicrosOneDecimal | services/slack/export_test.go:107-110 | ".1" → …100000 µs |
| TimestampExamples.MillisTwoDecimals | services/slack/export_test.go:46-49 | ".12" → …120 ms |
| TimestampExamples.MicrosTwoDecimals | services/slack/export_test.go:112-115 | ".12" → …120000 µs |
| TimestampExamples.MillisThreeDecimals | services/slack/export_test.go:51-54 | ".123" → …123 ms |
| TimestampExamples.MicrosThreeDecimals | services/slack/export_test.go:117-120 | ".123" → …123000 µs |
| TimestampExamples.MillisFourDecimals | services/slack/export_test.go:56-59 | ".1234" → …123 ms |
| TimestampExamples.MicrosFourDecimals | services/slack/export_test.go:122-125 | ".1234" → …123400 µs |
| TimestampExamples.MillisFiveDecimals | services/slack/export_test.go:61-64 | ".12345" → …123 ms |
| TimestampExamples.MicrosFiveDecimals | services/slack/export_test.go:127-130 | ".12345" → …123450 µs |
| Emoji.FirstTone | services/slack/intermediate.go:701-715 | the first skin-tone row whose Slack suffix ends the name, or none |
| Emoji.ReplaceColons | services/slack/intermediate.go:717-721 | every ':' becomes '_', nothing else changes |
| Emoji.SlackConvertEmojiName | services/slack/intermediate.go:699-728 | the output never holds ':'; a name without ':' is returned unchanged |
| Emoji.ToneHasColon | services/slack/intermediate.go:703-710 | every Slack tone suffix holds ':' and no Mattermost one does |
| Emoji.OnlyTone | services/slack/intermediate.go:711-715 | a name ending "::skin-tone-N" matches row N - 2 first |
| Emoji.SkinToneSuffix | services/slack/intermediate.go:711-715 | base + "::skin-tone-N" converts to the converted base + the Mattermost tone |
| Emoji.TwoSkinTones | services/slack/intermediate.go:711-715 | stacked tones convert innermost first |
| Emoji.CompoundEmoji | services/slack/intermediate.go:717-721 | without a tone suffix, ':' is replaced by '_' |
| Emoji.ConvertIdempotent | services/slack/intermediate.go:699-728 | converting twice is converting once |
| TransformSpec.UserWithOverrides | services/slack/intermediate.go:172-207 | no entry: unchanged; otherwise each non-empty field replaces, "-" clears first/last/position and is literal for username/email/password |
| TransformSpec.ChannelWithOverrides | services/slack/intermediate.go:307-345 | same for channels, "-" clearing all five fields; other fields unchanged |
| TransformSpec.EmptyUserOverride | services/slack/intermediate.go:177-203 | an all-empty override leaves the user unchanged |
| TransformSpec.DashUserOverride | services/slack/intermediate.go:177-203 | an all-"-" override clears first/last/position and sets username/email/password to "-" |
| TransformSpec.SanitisedUser | services/slack/intermediate.go:89-94 | an empty email becomes username@example.com; otherwise unchanged |
| TransformSpec.SanitiseUserIdempotent | services/slack/intermediate.go:89-94 | sanitising twice is sanitising once |
| TransformSpec.TransformedUser | services/slack/intermediate.go:214-230 | a transformed user is keyed by its (bot) id, and has an email and no memberships |
| TransformSpec.TransformedUsersKeys | services/slack/intermediate.go:209-236 | the users map is keyed by exactly the (bot) ids of the input |
| TransformSpec.TransformedUsersWellFiled | services/slack/intermediate.go:209-236 | every user is filed under its own id and has an email |
| TransformSpec.TransformedUsersLast | services/slack/intermediate.go:230 | the last user with an id wins, with the id drawn in its turn |
| TransformSpec.ValidMembers | services/slack/intermediate.go:238-247 | the valid members are known users, no more than the members |
| TransformSpec.ValidMembersCount | services/slack/intermediate.go:238-247 | each known id occurs as often as in the members, unknown ids never |
| TransformSpec.ValidMembersAppend | services/slack/intermediate.go:238-247 | filtering distributes over concatenation (order kept) |
| TransformSpec.ValidMembersAllKnown | services/slack/intermediate.go:238-247 | members all known are kept as they are |
| TransformSpec.KnownUsernamesLength | services/slack/intermediate.go:370-373 | member usernames correspond one to one, in order, to the valid members |
| TransformSpec.TruncateRunes | services/slack/intermediate.go:59-74 | truncation gives a prefix of at most n runes, the whole string when it fits |
| TransformSpec.SanitisedName | services/slack/intermediate.go:46-56 | the handle is valid or the lower-cased id (the byte cut as in `Text.BytePrefix`) |
| TransformSpec.SanitisedChannelBounds | services/slack/intermediate.go:41-76 | direct channels unchanged; otherwise purpose and header are prefixes within their maxima, the name valid or the id, other fields unchanged |
| TransformSpec.SanitisedNameTrimmed | services/slack/intermediate.go:46-56 | a valid trimmed handle within the limit is kept |
| TransformSpec.SanitisedNameShort | services/slack/intermediate.go:51-53 | a one-character handle gets the prefix "slack-channel-" |
| TransformSpec.SanitisedNameFallback | services/slack/intermediate.go:54-56 | an invalid handle becomes the lower-cased id |
| TransformSpec.OriginalName | services/slack/intermediate.go:249-255 | the name, or the id when the name is empty |
| TransformSpec.ChannelDropped | services/slack/intermediate.go:351-354 | a channel is dropped iff it is direct or group with at most one valid member |
| TransformSpec.ChannelMembers | services/slack/intermediate.go:350-390 | a kept channel's members are exactly its valid members |
| TransformSpec.BigGroupDemoted | services/slack/intermediate.go:356-404 | a group above the ceiling is kept and becomes private, with its purpose as original name; its handle is the trimmed purpose when that is a valid handle within the byte limit, not a single byte and not overridden |
| TransformSpec.InternalOnlyPrivate | services/slack/intermediate.go:396-398 | internal-only direct or group channels become private |
| TransformSpec.ChannelTypeKept | services/slack/intermediate.go:347-409 | open and private channels are kept with their type |
| TransformSpec.OverridesSkipDirect | services/slack/intermediate.go:400-402 | overrides do not affect direct or group outputs |
| TransformSpec.TransformedChannelsMembers | services/slack/intermediate.go:347-409 | no more channels out than in, and every member is a known user |
| TransformSpec.TransformedChannelsSnoc | services/slack/intermediate.go:349-406 | one more channel appends its transform unless dropped |
| TransformSpec.ChannelNamesWithMember | services/slack/intermediate.go:414-422 | every channel listing the user contributes its name |
| TransformSpec.ChannelNamesWithSource | services/slack/intermediate.go:414-422 | every name contributed comes from a channel listing the user |
| TransformSpec.PlaceholderRecognised | services/slack/intermediate.go:655-667 | a placeholder is recognised as such; without override it is lower(id), id@local, "Deleted User" |
| TransformSpec.PlaceholderUsername | services/slack/intermediate.go:655-667 | the placeholder's username does not depend on the drawn password |
| TransformSpec.UserReactions | services/slack/intermediate.go:679-694 | one reaction per reacting user |
| TransformSpec.UserReactionsSnoc | services/slack/intermediate.go:678-694 | one more user appends one reaction at postCreateAt + 1 |
| TransformSpec.ReactionsSnoc | services/slack/intermediate.go:674-695 | one more reaction appends the reactions of its users |
| TransformSpec.UserReactionsShape | services/slack/intermediate.go:678-694 | entry k is user k's name, at postCreateAt + 1, with the emoji |
| TransformSpec.ExpandReactionsShape | services/slack/intermediate.go:669-697 | one entry per (reaction, user), all at postCreateAt + 1, no ':' in the emoji |
| Transform.IntermediateUser.Sanitise | services/slack/intermediate.go:89-94 | the new state is the sanitised old state |
| Transform.IntermediateChannel.Sanitise | services/slack/intermediate.go:41-76 | the new state is `SanitisedChannel` of the old state (the byte cut as in `Text.BytePrefix`) |
| Transform.IdSource.NewId | services/slack/intermediate.go:221 | the next id of the injected source, advancing it |
| Transform.FilterValidMembers | services/slack/intermediate.go:238-247 | the loop returns the valid members |
| Transform.ContainsMember | services/slack/intermediate.go:417-422 | found iff the id is among the members |
| Transform.NamesOfChannelsWith | services/slack/intermediate.go:416-423 | the names of the channels listing the user, in order |
| Transform.MemberUsernames | services/slack/intermediate.go:439-445 | the usernames of the known members, in order |
| Transform.IndexByNameAppend | services/slack/intermediate.go:537-552 | indexing two lists in turn is indexing their concatenation |
| Transform.IndexByNameKeys | services/slack/intermediate.go:537-552 | the keys are the original names added |
| Transform.IndexByNameLast | services/slack/intermediate.go:537-552 | the last channel with a name wins |
| Transform.FileByOriginalName | services/slack/intermediate.go:539-541 | one loop files a list by original name |
| Transform.BuildChannelsByOriginalNameMap | services/slack/intermediate.go:537-552 | public, private, group, then direct channels filed by original name |
| Transform.FirstFree | services/slack/intermediate.go:500-507 | the first timestamp not taken, at or after the start |
| Transform.AddPostToThreads | services/slack/intermediate.go:491-535 | IsDirect iff direct/group; CreateAt moved to the first free value, which alone joins the set; a reply is appended to its root (or dropped); any other post becomes the root under its timestamp; of the root only `Replies` changes, and of the post only `IsDirect`, `ChannelMembers`, `CreateAt` and, when it is its own root, `Replies` |
| Transform.Overridden | services/slack/intermediate.go:312-341 | one channel override field, "-" clearing |
| Transform.Transformer.ApplyUserOverrides | services/slack/intermediate.go:172-207 | the user's new state is `UserWithOverrides` of its old one |
| Transform.Transformer.ApplyChannelOverrides | services/slack/intermediate.go:307-345 | the channel's new state is `ChannelWithOverrides` of its old one |
| Transform.Transformer.NewUser | services/slack/intermediate.go:211-229 | a fresh user holding the transformed record, one id drawn |
| Transform.Transformer.InsertNewUser | services/slack/intermediate.go:212-231 | loop body: the users map so far equals the spec for one more Slack user |
| Transform.Transformer.TransformUsers | services/slack/intermediate.go:209-236 | the users map holds exactly `TransformedUsers`, fresh objects, one id per user, nothing else changed |
| Transform.Transformer.ChannelName | services/slack/intermediate.go:361-376 | the handle: trimmed, or lower(id)-kind-sorted usernames when internal-only |
| Transform.Transformer.TransformChannel | services/slack/intermediate.go:349-406 | dropped iff the spec drops it; otherwise a fresh channel holding the spec's record |
| Transform.Transformer.NewChannel | services/slack/intermediate.go:361-398 | a fresh channel holding the built record |
| Transform.Transformer.KeptChannel | services/slack/intermediate.go:386-404 | the built record, overridden when open or private, then sanitised |
| Transform.Transformer.TransformChannels | services/slack/intermediate.go:347-409 | the channels out are `TransformedChannels`, fresh and distinct |
| Transform.Transformer.AppendTransformed | services/slack/intermediate.go:349-406 | loop body: one more channel appended unless dropped |
| Transform.Transformer.PopulateUserMemberships | services/slack/intermediate.go:411-434 | every user's memberships become the public then private channel names listing it; nothing else changes |
| Transform.Transformer.MembershipsOf | services/slack/intermediate.go:415-431 | the names of the public, then the private channels listing the user |
| Transform.Transformer.PopulateUser | services/slack/intermediate.go:432 | loop body: one more user's memberships set |
| Transform.Transformer.PopulateMembersUsernames | services/slack/intermediate.go:439-447 | each channel's member usernames become its known members' usernames |
| Transform.Transformer.PopulateMembers | services/slack/intermediate.go:439-447 | loop body: one more channel done |
| Transform.Transformer.PopulateChannelMemberships | services/slack/intermediate.go:436-459 | group and direct channels get their member usernames, nothing else changes |
| Transform.Transformer.CreateIntermediateUser | services/slack/intermediate.go:655-667 | a fresh placeholder user, overrides applied, under the id; only that key changes |
| Transform.Transformer.ReactingUsername | services/slack/intermediate.go:680-684 | the reacting user's username; a missing user is created, and every user added since `before` is a placeholder for its id (`IsPlaceholder`); existing users are kept |
| Transform.Transformer.UserReactionsOf | services/slack/intermediate.go:678-694 | the reactions are `UserReactions` of the users; exactly the missing users are added, each a placeholder for its id; existing users are kept |
| Transform.Transformer.SlackConvertReactions | services/slack/intermediate.go:669-697 | none gives none; otherwise `ExpandReactions` over the users before the call; exactly the missing reacting users are added, each a placeholder for its id; existing users are kept |

## Left out

- `commands/transform.go` is not part of this model: CLI flags, file and directory handling, logger setup.
- Parsing `ParseUserOverrides` and `ParseChannelOverrides` from CSV is left out (file I/O). The override tables are taken as given maps.
- JSON: `postOriginalEquivalent` is the `Equivalence` parameter. `GetPropsForPost`, the props rune-size checks, and the zlib/base64 reply compaction are left out.
- Attachments are left out (`addFileToPost`, `addDownloadToPost`, `addZipFileToPost`, `createDirectoryForFile`, `downloadInto`), as are `humanSize`, `makeAlphaNum` and `getNormalisedFilePath`. These are filesystem, network, floating point and Unicode normalisation.
- `TransformPosts`, `CreateAndAddPostToThreads`, `AddFilesToPost`, `TransformAllChannels` and `Transform` are left out. They are drivers over Go map iteration, with output order unspecified.
- Logging and warnings are left out. This includes the warning when a reaction's `Count` differs from its number of users, and the warning for emoji names missing from the supported-emoji list. Both only log.
- `model.NewId` is random in Go. Here it is an injected `IdSource`.
- The Mattermost constants (`model.*Max*`) and `isValidChannelNameCharacters` are parameters, so the model holds for every value of them.
- `SlackConvertTimeStamp` and `SlackConvertTimeStampToMicroSeconds` themselves are not part of this model. The Dafny functions are exact decimal conversions that agree with every test-table row. Only non-negative decimals are accepted; any other string gives the sentinel 1.
- Text.Lower: `strings.ToLower` is modelled on ASCII letters only.
- Text.BytePrefix: a Dafny string holds whole characters, so it cannot hold part of a multi-byte rune. Where Go's `c.Name[0:n]` (`services/slack/intermediate.go:49`) cuts inside a rune, Go keeps that rune's leading bytes and the model drops the whole rune. For example, "abé" cut to 3 bytes is "ab\xc3" in Go and "ab" here. Go then hands those bytes to `isValidChannelNameCharacters`, while the model checks the shorter valid string. With a limit of 1, a handle starting with a multi-byte rune becomes one stray byte in Go and gets the "slack-channel-" prefix; here it becomes "" and gets none. When the cut falls between runes, which it always does for ASCII handles, the model and Go agree (`Text.BytePrefixOnBoundary`, `Text.BytePrefixAscii`).
- TransformSpec.SanitisedName: a handle longer than the byte limit whose cut falls inside a rune is sanitised as described for `Text.BytePrefix`, not as Go does.
- Transform.IntermediateChannel.Sanitise: the same difference as `TransformSpec.SanitisedName`, for handles over the byte limit whose cut falls inside a rune.
- MergeWith.MergeSlicesWith: Go returns the values in map-iteration order, which is unspecified. The model returns them in first-seen order. Every property of the merge is also stated independently of order: id sets, distinctness, first occurrence.
- MergeWith.MergeMapsWith: Go visits `b`'s keys in random order. The model picks any remaining key, so which shared-key error is reported is unspecified, as in Go.
- Export: only the fields the core reads or compares are modelled. `reflect.DeepEqual` in `mergeUser` and `mergePost` would also compare the Go types' other fields.
- Transform.Transformer.SlackConvertReactions: a reaction's `User` is Go's pointer to the user's `Username` field; the model stores the username as a value. Later changes to the user are not reflected.
- Transform.AddPostToThreads: `threads` and `timestamps` are Go maps passed by reference; the model passes them by value and returns the updated ones. The root post object is still updated in place.
- Transform.AddPostToThreads: the "overwriting root post" warnings are not modelled.
- Integer widths: lengths, `CreateAt` and the timestamps are unbounded integers. `int64` overflow of `CreateAt++` and of `postCreateAt + 1` is not modelled.
- The model keeps the source's quirk that `TransformChannels` never sets `IntermediateChannel.Id`. The `strings.ToLower(c.Id)` fallback in `IntermediateChannel.Sanitise` therefore sees an empty id, as in the source.
