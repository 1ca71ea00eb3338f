/** Merging several Slack exports of one workspace into one export: lists of
    channels and users are merged by id, post lists by timestamp within each
    channel directory, uploads by path; records that occur in more than one
    export must agree, up to the differences each reconciler tolerates. */
module Merge {
  import opened Wrappers
  import opened Text
  import opened ZipExtra
  import opened Export
  import opened MergeWith

  datatype ChannelField = IdField | NameField | CreatorField | MembersField | PurposeField | TopicField | TypeField

  datatype ZipField = ZipNonUTF8 | ZipName | ZipCRC32Unknown | ZipCRC32 | ZipSize | ZipExtraFields | ZipExternalAttrs

  datatype MergeError =
    | NoExports
    | TeamNamesDiffer(first: string, other: string)
    | ChannelsDiffer(field: ChannelField)
    | UsersDiffer
    | PostsDiffer
    | OriginalUnreadable(reason: string)
    | OriginalsDiffer
    | ZipFilesDiffer(what: ZipField)
    | ZipExtraUnreadable(name: string, cause: ParseError)

  /** postOriginalEquivalent: whether two posts' raw JSON agree once last_read,
      subscribed and every blocks[].block_id are removed; an error when either
      does not decode. */
  type Equivalence = (string, string) -> Result<bool, string>

  // ---------------------------------------------------------------------------
  // Channels
  // ---------------------------------------------------------------------------

  function ChannelKey(c: SlackChannel): string { c.Id }

  /** The two channels differ in the named field; members are compared as a
      multiset, since they are sorted before the comparison. */
  predicate ChannelDiffers(a: SlackChannel, b: SlackChannel, f: ChannelField) {
    match f
    case IdField => a.Id != b.Id
    case NameField => a.Name != b.Name
    case CreatorField => a.Creator != b.Creator
    case MembersField => multiset(a.Members) != multiset(b.Members)
    case PurposeField => a.Purpose != b.Purpose
    case TopicField => a.Topic != b.Topic
    case TypeField => a.Type != b.Type
  }

  /** Two descriptions of one channel that may be merged. */
  predicate ChannelsAgree(a: SlackChannel, b: SlackChannel) {
    && a.Id == b.Id && a.Name == b.Name && a.Creator == b.Creator
    && multiset(a.Members) == multiset(b.Members)
    && a.Purpose == b.Purpose && a.Topic == b.Topic && a.Type == b.Type
  }

  /** mergeChannel: checks Id, Name, Creator, sorted Members, Purpose, Topic
      and Type in that order, fails naming the first field that differs, and
      otherwise keeps the first channel. */
  function MergeChannel(a: SlackChannel, b: SlackChannel): (r: Result<SlackChannel, MergeError>)
    ensures r.Ok? <==> ChannelsAgree(a, b)
    ensures r.Ok? ==> r.value == a
    ensures r.Err? ==> r.error.ChannelsDiffer? && ChannelDiffers(a, b, r.error.field)
  {
    SortedEqualIffSameMultiset(a.Members, b.Members);
    if a.Id != b.Id then Err(ChannelsDiffer(IdField))
    else if a.Name != b.Name then Err(ChannelsDiffer(NameField))
    else if a.Creator != b.Creator then Err(ChannelsDiffer(CreatorField))
    else if SortStrings(a.Members) != SortStrings(b.Members) then Err(ChannelsDiffer(MembersField))
    else if a.Purpose != b.Purpose then Err(ChannelsDiffer(PurposeField))
    else if a.Topic != b.Topic then Err(ChannelsDiffer(TopicField))
    else if a.Type != b.Type then Err(ChannelsDiffer(TypeField))
    else Ok(a)
  }

  /** mergeChannels: channels merged by Id. */
  function MergeChannels(a: seq<SlackChannel>, b: seq<SlackChannel>): Result<seq<SlackChannel>, MergeError> {
    MergeSlices(a, b, ChannelKey, MergeChannel)
  }

  /** Merged channels: one per channel id of either list, each being the
      first description of that id; a failure names a field in which two
      descriptions of one channel differ. */
  lemma MergeChannelsResult(a: seq<SlackChannel>, b: seq<SlackChannel>)
    ensures MergeChannels(a, b).Ok? ==>
      && DistinctIds(MergeChannels(a, b).value, ChannelKey)
      && Ids(MergeChannels(a, b).value, ChannelKey) == Ids(a, ChannelKey) + Ids(b, ChannelKey)
      && forall m :: 0 <= m < |MergeChannels(a, b).value| ==>
           exists i :: 0 <= i < |a + b| && (a + b)[i] == MergeChannels(a, b).value[m] && FirstOfItsId(a + b, i, ChannelKey)
    ensures MergeChannels(a, b).Err? ==> MergeChannels(a, b).error.ChannelsDiffer?
  {
    IdsAppend(a, b, ChannelKey);
    if MergeChannels(a, b).Ok? {
      MergeSlicesIds(a, b, ChannelKey, MergeChannel);
      MergeSlicesKeepsFirst(a, b, ChannelKey, MergeChannel);
    } else {
      var stored, i := MergeSlicesErr(a, b, ChannelKey, MergeChannel);
    }
  }

  // ---------------------------------------------------------------------------
  // Users
  // ---------------------------------------------------------------------------

  function UserKey(u: SlackUser): string { u.Id }

  function WithEmail(u: SlackUser, email: string): SlackUser {
    u.(Profile := u.Profile.(Email := email))
  }

  /** Two descriptions of one user that differ at most in that one of them
      lacks the email address. */
  predicate UsersCompatible(a: SlackUser, b: SlackUser) {
    && WithEmail(a, "") == WithEmail(b, "")
    && (a.Profile.Email == b.Profile.Email || a.Profile.Email == "" || b.Profile.Email == "")
  }

  /** mergeUser: equal users merge to themselves; otherwise a missing email
      is taken from the other user, and the users must then be equal. */
  function MergeUser(a: SlackUser, b: SlackUser): (r: Result<SlackUser, MergeError>)
    ensures a == b ==> r == Ok(a)
    ensures r.Ok? <==> UsersCompatible(a, b)
    ensures r.Ok? ==> WithEmail(r.value, "") == WithEmail(a, "")
    ensures r.Ok? ==> r.value.Profile.Email == if a.Profile.Email == "" then b.Profile.Email else a.Profile.Email
    ensures r.Err? ==> r.error == UsersDiffer
  {
    if a == b then Ok(a)
    else
      var a' := if a.Profile.Email == "" then WithEmail(a, b.Profile.Email) else a;
      var b' := if b.Profile.Email == "" then WithEmail(b, a'.Profile.Email) else b;
      if a' == b' then Ok(a') else Err(UsersDiffer)
  }

  /** mergeUsers: users merged by Id. */
  function MergeUsers(a: seq<SlackUser>, b: seq<SlackUser>): Result<seq<SlackUser>, MergeError> {
    MergeSlices(a, b, UserKey, MergeUser)
  }

  /** Merged users: one per user id of either list. */
  lemma MergeUsersResult(a: seq<SlackUser>, b: seq<SlackUser>)
    ensures MergeUsers(a, b).Ok? ==>
      && DistinctIds(MergeUsers(a, b).value, UserKey)
      && Ids(MergeUsers(a, b).value, UserKey) == Ids(a, UserKey) + Ids(b, UserKey)
    ensures MergeUsers(a, b).Err? ==> MergeUsers(a, b).error == UsersDiffer
  {
    IdsAppend(a, b, UserKey);
    if MergeUsers(a, b).Ok? {
      MergeSlicesIds(a, b, UserKey, MergeUser);
    } else {
      var stored, i := MergeSlicesErr(a, b, UserKey, MergeUser);
    }
  }

  // ---------------------------------------------------------------------------
  // Posts
  // ---------------------------------------------------------------------------

  function PostKey(p: SlackPost): string { p.TimeStamp }

  /** mergePost: the posts must be equal apart from their raw JSON, and the
      raw JSON must be equivalent; the first post is kept. */
  function MergePost(a: SlackPost, b: SlackPost, equiv: Equivalence): (r: Result<SlackPost, MergeError>)
    ensures r.Ok? <==> a.(Original := "") == b.(Original := "") && equiv(a.Original, b.Original) == Ok(true)
    ensures r.Ok? ==> r.value == a
    ensures a.(Original := "") != b.(Original := "") ==> r == Err(PostsDiffer)
    ensures a.(Original := "") == b.(Original := "") && equiv(a.Original, b.Original).Err? ==>
      r == Err(OriginalUnreadable(equiv(a.Original, b.Original).error))
    ensures equiv(a.Original, b.Original) == Ok(false) ==> r.Err?
  {
    if a.(Original := "") != b.(Original := "") then Err(PostsDiffer)
    else
      match equiv(a.Original, b.Original)
      case Err(e) => Err(OriginalUnreadable(e))
      case Ok(same) => if same then Ok(a) else Err(OriginalsDiffer)
  }

  function PostMerger(equiv: Equivalence): (SlackPost, SlackPost) -> Result<SlackPost, MergeError> {
    (a: SlackPost, b: SlackPost) => MergePost(a, b, equiv)
  }

  /** mergePostSlice: the posts of one channel merged by TimeStamp. */
  function MergePostSlice(a: seq<SlackPost>, b: seq<SlackPost>, equiv: Equivalence): Result<seq<SlackPost>, MergeError> {
    MergeSlices(a, b, PostKey, PostMerger(equiv))
  }

  function PostSliceMerger(equiv: Equivalence): (seq<SlackPost>, seq<SlackPost>) -> Result<seq<SlackPost>, MergeError> {
    (a: seq<SlackPost>, b: seq<SlackPost>) => MergePostSlice(a, b, equiv)
  }

  /** mergePosts: the per-channel post lists merged by channel directory. */
  function MergePosts(a: map<string, seq<SlackPost>>, b: map<string, seq<SlackPost>>, equiv: Equivalence): Option<map<string, seq<SlackPost>>> {
    MergeMaps(a, b, PostSliceMerger(equiv))
  }

  /** Merged post lists: one post per timestamp of either list, each the first
      post with that timestamp. */
  lemma MergePostSliceResult(a: seq<SlackPost>, b: seq<SlackPost>, equiv: Equivalence)
    requires MergePostSlice(a, b, equiv).Ok?
    ensures DistinctIds(MergePostSlice(a, b, equiv).value, PostKey)
    ensures Ids(MergePostSlice(a, b, equiv).value, PostKey) == Ids(a, PostKey) + Ids(b, PostKey)
    ensures forall m :: 0 <= m < |MergePostSlice(a, b, equiv).value| ==>
      exists i :: 0 <= i < |a + b| && (a + b)[i] == MergePostSlice(a, b, equiv).value[m] && FirstOfItsId(a + b, i, PostKey)
  {
    IdsAppend(a, b, PostKey);
    MergeSlicesIds(a, b, PostKey, PostMerger(equiv));
    MergeSlicesKeepsFirst(a, b, PostKey, PostMerger(equiv));
  }

  // ---------------------------------------------------------------------------
  // Uploads
  // ---------------------------------------------------------------------------

  /** Differing extra blobs are accepted when both read as records and hold
      only Extended Timestamp records. */
  predicate ExtraCompatible(x: seq<byte>, y: seq<byte>) {
    x == y || (Parse(x).Ok? && Parse(y).Ok? && OnlyTimestamps(Parse(x).value) && OnlyTimestamps(Parse(y).value))
  }

  /** Two descriptors of one uploaded file that may be merged; Comment,
      CreatorVersion, ReaderVersion and Flags may differ. */
  predicate ZipFilesAgree(a: ZipFile, b: ZipFile) {
    && a.NonUTF8 == b.NonUTF8 && a.Name == b.Name
    && a.CRC32 != 0 && b.CRC32 != 0 && a.CRC32 == b.CRC32
    && a.UncompressedSize64 == b.UncompressedSize64
    && ExtraCompatible(a.Extra, b.Extra)
    && a.ExternalAttrs == b.ExternalAttrs
  }

  /** mergeZipFile: checks the descriptors in order and keeps the first. */
  function MergeZipFile(a: ZipFile, b: ZipFile): (r: Result<ZipFile, MergeError>)
    ensures r.Ok? <==> ZipFilesAgree(a, b)
    ensures r.Ok? ==> r.value == a
    ensures r.Err? ==> r.error.ZipFilesDiffer? || r.error.ZipExtraUnreadable?
    ensures r.Err? && r.error.ZipExtraUnreadable? ==>
      && a.Extra != b.Extra
      && ((r.error.name == a.Name && Parse(a.Extra) == Err(r.error.cause))
          || (r.error.name == b.Name && Parse(b.Extra) == Err(r.error.cause)))
    ensures (a.CRC32 == 0 || b.CRC32 == 0) && a.NonUTF8 == b.NonUTF8 && a.Name == b.Name ==> r == Err(ZipFilesDiffer(ZipCRC32Unknown))
  {
    if a.NonUTF8 != b.NonUTF8 then Err(ZipFilesDiffer(ZipNonUTF8))
    else if a.Name != b.Name then Err(ZipFilesDiffer(ZipName))
    else if a.CRC32 == 0 || b.CRC32 == 0 then Err(ZipFilesDiffer(ZipCRC32Unknown))
    else if a.CRC32 != b.CRC32 then Err(ZipFilesDiffer(ZipCRC32))
    else if a.UncompressedSize64 != b.UncompressedSize64 then Err(ZipFilesDiffer(ZipSize))
    else if a.Extra != b.Extra && Parse(a.Extra).Err? then Err(ZipExtraUnreadable(a.Name, Parse(a.Extra).error))
    else if a.Extra != b.Extra && Parse(b.Extra).Err? then Err(ZipExtraUnreadable(b.Name, Parse(b.Extra).error))
    else if a.Extra != b.Extra && !(OnlyTimestamps(Parse(a.Extra).value) && OnlyTimestamps(Parse(b.Extra).value)) then
      Err(ZipFilesDiffer(ZipExtraFields))
    else if a.ExternalAttrs != b.ExternalAttrs then Err(ZipFilesDiffer(ZipExternalAttrs))
    else Ok(a)
  }

  /** mergeUploads: uploads merged by path. */
  function MergeUploads(a: map<string, ZipFile>, b: map<string, ZipFile>): Option<map<string, ZipFile>> {
    MergeMaps(a, b, MergeZipFile)
  }

  /** Two descriptors that agree except that their extra blobs were written
      from different lists of Extended Timestamp records merge to the first. */
  lemma MergeZipFileTimestampsOnly(a: ZipFile, fs: seq<ExtraField>, gs: seq<ExtraField>)
    requires AllWellFormed(fs) && AllWellFormed(gs)
    requires OnlyTimestamps(fs) && OnlyTimestamps(gs)
    requires a.CRC32 != 0
    ensures MergeZipFile(a.(Extra := Serialize(fs)), a.(Extra := Serialize(gs))) == Ok(a.(Extra := Serialize(fs)))
  {
    ParseSerialize(fs);
    ParseSerialize(gs);
  }

  /** A descriptor whose extra blob holds another kind of record does not
      merge with one whose blob differs. */
  lemma MergeZipFileOtherRecord(a: ZipFile, b: ZipFile, fs: seq<ExtraField>, i: nat)
    requires AllWellFormed(fs) && a.Extra == Serialize(fs) && a.Extra != b.Extra
    requires i < |fs| && fs[i].field != ExtendedTimestampId
    ensures MergeZipFile(a, b).Err?
  {
    ParseSerialize(fs);
  }

  // ---------------------------------------------------------------------------
  // Whole exports
  // ---------------------------------------------------------------------------

  /** The merge of the accumulated export with the next one, None when any
      part fails. */
  function MergePair(acc: SlackExport, e: SlackExport, equiv: Equivalence): Option<SlackExport> {
    var channels := MergeChannels(acc.Channels, e.Channels);
    var public := MergeChannels(acc.PublicChannels, e.PublicChannels);
    var private := MergeChannels(acc.PrivateChannels, e.PrivateChannels);
    var group := MergeChannels(acc.GroupChannels, e.GroupChannels);
    var direct := MergeChannels(acc.DirectChannels, e.DirectChannels);
    var users := MergeUsers(acc.Users, e.Users);
    var posts := MergePosts(acc.Posts, e.Posts, equiv);
    var uploads := MergeUploads(acc.Uploads, e.Uploads);
    if && acc.TeamName == e.TeamName
       && channels.Ok? && public.Ok? && private.Ok? && group.Ok? && direct.Ok?
       && users.Ok? && posts.Some? && uploads.Some?
    then Some(SlackExport(acc.TeamName, channels.value, public.value, private.value, group.value,
                          direct.value, users.value, posts.value, uploads.value))
    else None
  }

  /** The merge of a non-empty list of exports, left to right. */
  function MergeAll(exports: seq<SlackExport>, equiv: Equivalence): Option<SlackExport>
    requires exports != []
    decreases |exports|
  {
    if |exports| == 1 then Some(exports[0])
    else
      match MergeAll(exports[..|exports| - 1], equiv)
      case None => None
      case Some(acc) => MergePair(acc, exports[|exports| - 1], equiv)
  }

  lemma MergeAllSnoc(exports: seq<SlackExport>, e: SlackExport, equiv: Equivalence)
    requires exports != []
    ensures MergeAll(exports + [e], equiv) ==
      match MergeAll(exports, equiv) case None => None case Some(acc) => MergePair(acc, e, equiv)
  {
    assert (exports + [e])[..|exports|] == exports;
  }

  /** A failure on a prefix of the list is a failure of the whole. */
  lemma {:induction false} MergeAllNoneExtends(exports: seq<SlackExport>, n: nat, equiv: Equivalence)
    requires 1 <= n <= |exports|
    requires MergeAll(exports[..n], equiv).None?
    ensures MergeAll(exports, equiv).None?
    decreases |exports| - n
  {
    if n < |exports| {
      TakeSnoc(exports, n);
      MergeAllSnoc(exports[..n], exports[n], equiv);
      MergeAllNoneExtends(exports, n + 1, equiv);
    } else {
      TakeAll(exports);
    }
  }

  /** One pass of the loop of MergeSlackExports: the team names must match,
      then channel lists, users, posts and uploads are merged in that order,
      stopping at the first failure. */
  method MergeInto(acc: SlackExport, e: SlackExport, equiv: Equivalence) returns (r: Result<SlackExport, MergeError>)
    ensures r.Ok? <==> MergePair(acc, e, equiv).Some?
    ensures r.Ok? ==> r.value == MergePair(acc, e, equiv).value
    ensures acc.TeamName != e.TeamName ==> r == Err(TeamNamesDiffer(acc.TeamName, e.TeamName))
    ensures r.Err? && r.error.TeamNamesDiffer? ==> acc.TeamName != e.TeamName && r == Err(TeamNamesDiffer(acc.TeamName, e.TeamName))
    ensures r.Err? ==> r.error != NoExports
  {
    if acc.TeamName != e.TeamName {
      return Err(TeamNamesDiffer(acc.TeamName, e.TeamName));
    }
    var channels := MergeSlicesWith(acc.Channels, e.Channels, ChannelKey, MergeChannel);
    if channels.Err? {
      MergeChannelsResult(acc.Channels, e.Channels);
      return Err(channels.error);
    }
    var public := MergeSlicesWith(acc.PublicChannels, e.PublicChannels, ChannelKey, MergeChannel);
    if public.Err? {
      MergeChannelsResult(acc.PublicChannels, e.PublicChannels);
      return Err(public.error);
    }
    var private := MergeSlicesWith(acc.PrivateChannels, e.PrivateChannels, ChannelKey, MergeChannel);
    if private.Err? {
      MergeChannelsResult(acc.PrivateChannels, e.PrivateChannels);
      return Err(private.error);
    }
    var group := MergeSlicesWith(acc.GroupChannels, e.GroupChannels, ChannelKey, MergeChannel);
    if group.Err? {
      MergeChannelsResult(acc.GroupChannels, e.GroupChannels);
      return Err(group.error);
    }
    var direct := MergeSlicesWith(acc.DirectChannels, e.DirectChannels, ChannelKey, MergeChannel);
    if direct.Err? {
      MergeChannelsResult(acc.DirectChannels, e.DirectChannels);
      return Err(direct.error);
    }
    var users := MergeSlicesWith(acc.Users, e.Users, UserKey, MergeUser);
    if users.Err? {
      MergeUsersResult(acc.Users, e.Users);
      return Err(users.error);
    }
    var posts := MergeMapsWith(acc.Posts, e.Posts, PostSliceMerger(equiv));
    if posts.Err? {
      ghost var k :| k in acc.Posts && k in e.Posts && PostSliceMerger(equiv)(acc.Posts[k], e.Posts[k]) == Err(posts.error);
      PostSliceErr(acc.Posts[k], e.Posts[k], equiv);
      return Err(posts.error);
    }
    var uploads := MergeMapsWith(acc.Uploads, e.Uploads, MergeZipFile);
    if uploads.Err? {
      return Err(uploads.error);
    }
    return Ok(acc.(Channels := channels.value, PublicChannels := public.value, PrivateChannels := private.value,
                  GroupChannels := group.value, DirectChannels := direct.value, Users := users.value,
                  Posts := posts.value, Uploads := uploads.value));
  }

  /** A failure to merge post lists is a failure of some pair of posts. */
  lemma PostSliceErr(a: seq<SlackPost>, b: seq<SlackPost>, equiv: Equivalence)
    requires MergePostSlice(a, b, equiv).Err?
    ensures MergePostSlice(a, b, equiv).error in {PostsDiffer, OriginalsDiffer} || MergePostSlice(a, b, equiv).error.OriginalUnreadable?
  {
    var stored, i := MergeSlicesErr(a, b, PostKey, PostMerger(equiv));
  }

  /** MergeSlackExports: no export is an error, one export is returned as it
      is, and otherwise the first export is copied and every further export
      merged into it, stopping at the first failure. */
  method MergeSlackExports(exports: seq<SlackExport>, equiv: Equivalence) returns (r: Result<SlackExport, MergeError>)
    ensures exports == [] <==> r == Err(NoExports)
    ensures exports != [] ==> (r.Ok? <==> MergeAll(exports, equiv).Some?)
    ensures exports != [] && r.Ok? ==> r.value == MergeAll(exports, equiv).value
    ensures |exports| == 1 ==> r == Ok(exports[0])
    ensures r.Ok? ==> r.value.TeamName == exports[0].TeamName
    ensures r.Ok? ==> forall i :: 0 <= i < |exports| ==> exports[i].TeamName == exports[0].TeamName
    ensures r.Err? && r.error.TeamNamesDiffer? ==>
      && r.error.first == exports[0].TeamName
      && r.error.other != r.error.first
      && exists i :: 0 <= i < |exports| && exports[i].TeamName == r.error.other
  {
    if |exports| == 0 {
      return Err(NoExports);
    }
    if |exports| == 1 {
      return Ok(exports[0]);
    }
    var first := exports[0];
    var posts := CloneMap(first.Posts);
    var uploads := CloneMap(first.Uploads);
    var result := SlackExport(first.TeamName, first.Channels, first.PublicChannels, first.PrivateChannels,
                              first.GroupChannels, first.DirectChannels, first.Users, posts, uploads);
    TakeFirst(exports);
    var i := 1;
    while i < |exports|
      invariant 1 <= i <= |exports|
      invariant MergeAll(exports[..i], equiv) == Some(result)
      invariant result.TeamName == first.TeamName
    {
      var merged := MergeNext(exports, i, result, equiv);
      if merged.Err? {
        return merged;
      }
      result := merged.value;
      i := i + 1;
    }
    MergeAllDone(exports, i, result, equiv);
    return Ok(result);
  }

  /** When the loop of MergeSlackExports completes, its result is the merge
      of all exports, which therefore share one team name. */
  lemma MergeAllDone(exports: seq<SlackExport>, i: nat, result: SlackExport, equiv: Equivalence)
    requires 1 <= i == |exports| && MergeAll(exports[..i], equiv) == Some(result)
    ensures MergeAll(exports, equiv) == Some(result)
    ensures forall j :: 0 <= j < |exports| ==> exports[j].TeamName == exports[0].TeamName
  {
    TakeAll(exports);
    MergeAllTeamName(exports, equiv);
  }

  /** The loop body of MergeSlackExports: export i merged into the merge of
      the exports before it. */
  method MergeNext(exports: seq<SlackExport>, i: nat, result: SlackExport, equiv: Equivalence)
    returns (merged: Result<SlackExport, MergeError>)
    requires 1 <= i < |exports| && MergeAll(exports[..i], equiv) == Some(result)
    requires result.TeamName == exports[0].TeamName
    ensures merged.Ok? ==> MergeAll(exports[..i + 1], equiv) == Some(merged.value)
    ensures merged.Ok? ==> merged.value.TeamName == exports[0].TeamName
    ensures merged.Err? ==> MergeAll(exports, equiv).None? && merged.error != NoExports
    ensures merged.Err? && merged.error.TeamNamesDiffer? ==>
      merged.error == TeamNamesDiffer(exports[0].TeamName, exports[i].TeamName) && exports[i].TeamName != exports[0].TeamName
  {
    MergeAllStep(exports, i, result, equiv);
    merged := MergeInto(result, exports[i], equiv);
    if merged.Err? {
      MergeAllNoneExtends(exports, i + 1, equiv);
    } else {
      MergePairTeamName(result, exports[i], equiv);
    }
  }

  /** One more export merged into the merge of a prefix. */
  lemma MergeAllStep(exports: seq<SlackExport>, i: nat, acc: SlackExport, equiv: Equivalence)
    requires 1 <= i < |exports| && MergeAll(exports[..i], equiv) == Some(acc)
    ensures MergeAll(exports[..i + 1], equiv) == MergePair(acc, exports[i], equiv)
  {
    TakeSnoc(exports, i);
    MergeAllSnoc(exports[..i], exports[i], equiv);
  }

  lemma TakeFirst<T>(s: seq<T>)
    requires s != []
    ensures s[..1] == [s[0]]
  {
  }

  lemma TakeAll<T>(s: seq<T>)
    ensures s[..|s|] == s
  {
  }

  lemma TakeSnoc<T>(s: seq<T>, i: nat)
    requires i < |s|
    ensures s[..i + 1] == s[..i] + [s[i]]
  {
  }

  lemma MergePairTeamName(acc: SlackExport, e: SlackExport, equiv: Equivalence)
    ensures MergePair(acc, e, equiv).Some? ==> acc.TeamName == e.TeamName && MergePair(acc, e, equiv).value.TeamName == acc.TeamName
  {
  }

  /** What one successful step adds: the merged lists have one entry per id
      of either side, and the maps the keys of either side. */
  lemma MergePairCoverage(acc: SlackExport, e: SlackExport, equiv: Equivalence)
    requires MergePair(acc, e, equiv).Some?
    ensures DistinctIds(MergePair(acc, e, equiv).value.Channels, ChannelKey)
    ensures Ids(MergePair(acc, e, equiv).value.Channels, ChannelKey) == Ids(acc.Channels, ChannelKey) + Ids(e.Channels, ChannelKey)
    ensures DistinctIds(MergePair(acc, e, equiv).value.Users, UserKey)
    ensures Ids(MergePair(acc, e, equiv).value.Users, UserKey) == Ids(acc.Users, UserKey) + Ids(e.Users, UserKey)
    ensures MergePair(acc, e, equiv).value.Posts.Keys == acc.Posts.Keys + e.Posts.Keys
    ensures MergePair(acc, e, equiv).value.Uploads.Keys == acc.Uploads.Keys + e.Uploads.Keys
  {
    MergeChannelsResult(acc.Channels, e.Channels);
    MergeUsersResult(acc.Users, e.Users);
    MergeMapsContents(acc.Posts, e.Posts, PostSliceMerger(equiv));
    MergeMapsContents(acc.Uploads, e.Uploads, MergeZipFile);
  }

  // ---------------------------------------------------------------------------
  // What a successful merge of exports guarantees
  // ---------------------------------------------------------------------------

  /** A successful merge has the team name of the first export, which all
      exports share. */
  lemma {:induction false} MergeAllTeamName(exports: seq<SlackExport>, equiv: Equivalence)
    requires exports != [] && MergeAll(exports, equiv).Some?
    ensures MergeAll(exports, equiv).value.TeamName == exports[0].TeamName
    ensures forall i :: 0 <= i < |exports| ==> exports[i].TeamName == exports[0].TeamName
    decreases |exports|
  {
    if |exports| > 1 {
      var p := exports[..|exports| - 1];
      var e := exports[|exports| - 1];
      assert exports == p + [e];
      MergeAllSnoc(p, e, equiv);
      MergeAllTeamName(p, equiv);
      MergePairTeamName(MergeAll(p, equiv).value, e, equiv);
      assert forall i :: 0 <= i < |p| ==> p[i] == exports[i];
    }
  }

  /** The ids and keys found in every export of a list, part by part. */
  function AllChannelIds(exports: seq<SlackExport>): set<string>
    decreases |exports|
  {
    if exports == [] then {} else AllChannelIds(exports[..|exports| - 1]) + Ids(exports[|exports| - 1].Channels, ChannelKey)
  }

  function AllUserIds(exports: seq<SlackExport>): set<string>
    decreases |exports|
  {
    if exports == [] then {} else AllUserIds(exports[..|exports| - 1]) + Ids(exports[|exports| - 1].Users, UserKey)
  }

  function AllPostDirs(exports: seq<SlackExport>): set<string>
    decreases |exports|
  {
    if exports == [] then {} else AllPostDirs(exports[..|exports| - 1]) + exports[|exports| - 1].Posts.Keys
  }

  function AllUploadPaths(exports: seq<SlackExport>): set<string>
    decreases |exports|
  {
    if exports == [] then {} else AllUploadPaths(exports[..|exports| - 1]) + exports[|exports| - 1].Uploads.Keys
  }

  /** The last step of a merge of two or more exports. */
  lemma MergeAllLast(exports: seq<SlackExport>, equiv: Equivalence)
    requires |exports| >= 2 && MergeAll(exports, equiv).Some?
    ensures MergeAll(exports[..|exports| - 1], equiv).Some?
    ensures MergePair(MergeAll(exports[..|exports| - 1], equiv).value, exports[|exports| - 1], equiv) == MergeAll(exports, equiv)
  {
  }

  /** After merging two or more exports, the channel list holds exactly one
      channel per channel id found in any export. */
  lemma {:induction false} MergeAllChannels(exports: seq<SlackExport>, equiv: Equivalence)
    requires |exports| >= 2 && MergeAll(exports, equiv).Some?
    ensures DistinctIds(MergeAll(exports, equiv).value.Channels, ChannelKey)
    ensures Ids(MergeAll(exports, equiv).value.Channels, ChannelKey) == AllChannelIds(exports)
    decreases |exports|
  {
    var p := exports[..|exports| - 1];
    MergeAllLast(exports, equiv);
    if |p| >= 2 {
      MergeAllChannels(p, equiv);
    } else {
      assert p[..0] == [];
      assert MergeAll(p, equiv).value == exports[0];
      assert AllChannelIds(p) == Ids(exports[0].Channels, ChannelKey);
    }
    MergePairCoverage(MergeAll(p, equiv).value, exports[|exports| - 1], equiv);
  }

  /** After merging two or more exports, the user list holds exactly one user
      per user id found in any export. */
  lemma {:induction false} MergeAllUsers(exports: seq<SlackExport>, equiv: Equivalence)
    requires |exports| >= 2 && MergeAll(exports, equiv).Some?
    ensures DistinctIds(MergeAll(exports, equiv).value.Users, UserKey)
    ensures Ids(MergeAll(exports, equiv).value.Users, UserKey) == AllUserIds(exports)
    decreases |exports|
  {
    var p := exports[..|exports| - 1];
    MergeAllLast(exports, equiv);
    if |p| >= 2 {
      MergeAllUsers(p, equiv);
    } else {
      assert p[..0] == [];
      assert MergeAll(p, equiv).value == exports[0];
      assert AllUserIds(p) == Ids(exports[0].Users, UserKey);
    }
    MergePairCoverage(MergeAll(p, equiv).value, exports[|exports| - 1], equiv);
  }

  /** After merging two or more exports, posts are held for every channel
      directory, and uploads for every path, found in any export. */
  lemma {:induction false} MergeAllMaps(exports: seq<SlackExport>, equiv: Equivalence)
    requires |exports| >= 2 && MergeAll(exports, equiv).Some?
    ensures MergeAll(exports, equiv).value.Posts.Keys == AllPostDirs(exports)
    ensures MergeAll(exports, equiv).value.Uploads.Keys == AllUploadPaths(exports)
    decreases |exports|
  {
    var p := exports[..|exports| - 1];
    MergeAllLast(exports, equiv);
    if |p| >= 2 {
      MergeAllMaps(p, equiv);
    } else {
      assert p[..0] == [];
      assert MergeAll(p, equiv).value == exports[0];
      assert AllPostDirs(p) == exports[0].Posts.Keys;
      assert AllUploadPaths(p) == exports[0].Uploads.Keys;
    }
    MergePairCoverage(MergeAll(p, equiv).value, exports[|exports| - 1], equiv);
  }

  /** An export that merges with a copy of itself: ids are distinct in every
      list, timestamps are distinct within every channel's posts, every post's
      raw JSON is equivalent to itself, and every upload's CRC32 is known. */
  ghost predicate SelfMergeable(e: SlackExport, equiv: Equivalence) {
    && DistinctIds(e.Channels, ChannelKey) && DistinctIds(e.PublicChannels, ChannelKey)
    && DistinctIds(e.PrivateChannels, ChannelKey) && DistinctIds(e.GroupChannels, ChannelKey)
    && DistinctIds(e.DirectChannels, ChannelKey) && DistinctIds(e.Users, UserKey)
    && (forall d :: d in e.Posts ==> DistinctIds(e.Posts[d], PostKey))
    && (forall d, p :: d in e.Posts && p in e.Posts[d] ==> equiv(p.Original, p.Original) == Ok(true))
    && (forall f :: f in e.Uploads.Values ==> f.CRC32 != 0)
  }

  lemma ChannelsSelf(s: seq<SlackChannel>)
    requires DistinctIds(s, ChannelKey)
    ensures MergeChannels(s, s) == Ok(s)
  {
    MergeSlicesSelf(s, ChannelKey, MergeChannel);
  }

  /** Merging an export with itself gives the export back. */
  lemma MergePairSelf(e: SlackExport, equiv: Equivalence)
    requires SelfMergeable(e, equiv)
    ensures MergePair(e, e, equiv) == Some(e)
  {
    ChannelsSelf(e.Channels);
    ChannelsSelf(e.PublicChannels);
    ChannelsSelf(e.PrivateChannels);
    ChannelsSelf(e.GroupChannels);
    ChannelsSelf(e.DirectChannels);
    MergeSlicesSelf(e.Users, UserKey, MergeUser);
    PostsSelf(e.Posts, equiv);
    UploadsSelf(e.Uploads);
    assert SlackExport(e.TeamName, e.Channels, e.PublicChannels, e.PrivateChannels, e.GroupChannels,
                       e.DirectChannels, e.Users, e.Posts, e.Uploads) == e;
  }

  lemma PostsSelf(posts: map<string, seq<SlackPost>>, equiv: Equivalence)
    requires forall d :: d in posts ==> DistinctIds(posts[d], PostKey)
    requires forall d, p :: d in posts && p in posts[d] ==> equiv(p.Original, p.Original) == Ok(true)
    ensures MergePosts(posts, posts, equiv) == Some(posts)
  {
    forall d | d in posts ensures PostSliceMerger(equiv)(posts[d], posts[d]) == Ok(posts[d]) {
      MergeSlicesSelf(posts[d], PostKey, PostMerger(equiv));
    }
    MergeMapsSelf(posts, PostSliceMerger(equiv));
  }

  lemma UploadsSelf(uploads: map<string, ZipFile>)
    requires forall f :: f in uploads.Values ==> f.CRC32 != 0
    ensures MergeUploads(uploads, uploads) == Some(uploads)
  {
    forall d | d in uploads ensures MergeZipFile(uploads[d], uploads[d]) == Ok(uploads[d]) {
      assert uploads[d] in uploads.Values;
    }
    MergeMapsSelf(uploads, MergeZipFile);
  }

  /** Merging any number of copies of one export gives that export back. */
  lemma {:induction false} MergeAllCopies(exports: seq<SlackExport>, e: SlackExport, equiv: Equivalence)
    requires exports != [] && forall i :: 0 <= i < |exports| ==> exports[i] == e
    requires SelfMergeable(e, equiv)
    ensures MergeAll(exports, equiv) == Some(e)
    decreases |exports|
  {
    if |exports| > 1 {
      MergeAllCopies(exports[..|exports| - 1], e, equiv);
      MergePairSelf(e, equiv);
    }
  }
}
