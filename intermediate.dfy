/** The intermediate records the transform builds from a Slack export, as
    the mutable objects they are: users, channels and posts are updated in
    place through pointers, and the Intermediate holds them in maps and
    lists. Every method is proved against the functions of TransformSpec. */
module Transform {
  import opened Wrappers
  import opened Text
  import opened Export
  import opened Emoji
  import opened TransformSpec

  // ---------------------------------------------------------------------------
  // Records
  // ---------------------------------------------------------------------------

  class IntermediateUser {
    var Id: string
    var Username: string
    var FirstName: string
    var LastName: string
    var Position: string
    var Email: string
    var Password: string
    var Memberships: seq<string>

    function Data(): UserData
      reads this
    {
      UserData(Id, Username, FirstName, LastName, Position, Email, Password, Memberships)
    }

    constructor (d: UserData)
      ensures Data() == d
    {
      Id := d.Id;
      Username := d.Username;
      FirstName := d.FirstName;
      LastName := d.LastName;
      Position := d.Position;
      Email := d.Email;
      Password := d.Password;
      Memberships := d.Memberships;
    }

    /** A missing email becomes Username@example.com. */
    method Sanitise()
      modifies this
      ensures Data() == SanitisedUser(old(Data()))
    {
      if Email == "" {
        Email := Username + "@example.com";
      }
    }

    method SetMemberships(memberships: seq<string>)
      modifies this
      ensures Data() == old(Data()).(Memberships := memberships)
    {
      Memberships := memberships;
    }

    /** Stores the six fields an override may change. */
    method SetOverridable(username: string, first: string, last: string, position: string,
                          email: string, password: string)
      modifies this
      ensures Data() == old(Data()).(Username := username, FirstName := first, LastName := last,
                                     Position := position, Email := email, Password := password)
    {
      Username, FirstName, LastName, Position, Email, Password := username, first, last, position, email, password;
    }
  }

  class IntermediateChannel {
    var Id: string
    var OriginalName: string
    var Name: string
    var DisplayName: string
    var Members: seq<string>
    var MembersUsernames: seq<string>
    var Purpose: string
    var Header: string
    var Topic: string
    var Type: ChannelType

    function Data(): ChannelData
      reads this
    {
      ChannelData(Id, OriginalName, Name, DisplayName, Members, MembersUsernames, Purpose, Header, Topic, Type)
    }

    constructor (d: ChannelData)
      ensures Data() == d
    {
      Id := d.Id;
      OriginalName := d.OriginalName;
      Name := d.Name;
      DisplayName := d.DisplayName;
      Members := d.Members;
      MembersUsernames := d.MembersUsernames;
      Purpose := d.Purpose;
      Header := d.Header;
      Topic := d.Topic;
      Type := d.Type;
    }

    /** Bounds the handle, display name, purpose and header of every channel
        but a direct one. */
    method Sanitise(limits: Limits, validName: NameCheck)
      modifies this
      ensures Data() == SanitisedChannel(limits, validName, old(Data()))
    {
      if Type == Direct {
        return;
      }
      var name := SanitisedName(limits, validName, Name, Id);
      var display := SanitisedDisplayName(limits, DisplayName);
      var purpose := Purpose;
      if |purpose| > limits.ChannelPurposeMaxRunes {
        purpose := TruncateRunes(purpose, limits.ChannelPurposeMaxRunes);
      }
      var header := Header;
      if |header| > limits.ChannelHeaderMaxRunes {
        header := TruncateRunes(header, limits.ChannelHeaderMaxRunes);
      }
      SetNames(name, display, purpose, header);
    }

    /** Stores the five fields an override may change. */
    method SetOverridable(name: string, display: string, purpose: string, header: string, topic: string)
      modifies this
      ensures Data() == old(Data()).(Name := name, DisplayName := display, Purpose := purpose,
                                     Header := header, Topic := topic)
    {
      Name, DisplayName, Purpose, Header, Topic := name, display, purpose, header, topic;
    }

    method SetMembersUsernames(names: seq<string>)
      modifies this
      ensures Data() == old(Data()).(MembersUsernames := names)
    {
      MembersUsernames := names;
    }

    /** Stores the four fields Sanitise bounds. */
    method SetNames(name: string, display: string, purpose: string, header: string)
      modifies this
      ensures Data() == old(Data()).(Name := name, DisplayName := display, Purpose := purpose, Header := header)
    {
      Name, DisplayName, Purpose, Header := name, display, purpose, header;
    }
  }

  class IntermediatePost {
    var User: string
    var Channel: string
    var Message: string
    var CreateAt: int
    var Attachments: seq<string>
    var Replies: seq<IntermediatePost>
    var IsDirect: bool
    var ChannelMembers: seq<string>
    var Reactions: Option<seq<ReactionImportData>>

    constructor (user: string, channel: string, message: string, createAt: int)
      ensures User == user && Channel == channel && Message == message && CreateAt == createAt
      ensures Attachments == [] && Replies == [] && !IsDirect && ChannelMembers == [] && Reactions == None
    {
      User := user;
      Channel := channel;
      Message := message;
      CreateAt := createAt;
      Attachments := [];
      Replies := [];
      IsDirect := false;
      ChannelMembers := [];
      Reactions := None;
    }
  }

  /** model.NewId, an opaque source of fresh ids: the i-th id drawn is
      NewIdAt(i). */
  class IdSource {
    const NewIdAt: nat -> string
    var Issued: nat

    constructor (newIdAt: nat -> string)
      ensures NewIdAt == newIdAt && Issued == 0
    {
      NewIdAt := newIdAt;
      Issued := 0;
    }

    method NewId() returns (id: string)
      modifies this
      ensures id == IdAt(NewIdAt, old(Issued)) && Issued == old(Issued) + 1
    {
      id := IdAt(NewIdAt, Issued);
      Issued := Issued + 1;
    }
  }

  // ---------------------------------------------------------------------------
  // The intermediate state
  // ---------------------------------------------------------------------------

  /** The fields of every user object in a table. */
  function UsersData(m: map<string, IntermediateUser>): map<string, UserData>
    reads m.Values
  {
    map k | k in m :: m[k].Data()
  }

  /** Extending a prefix of a list of ids by one. */
  lemma PrefixSnoc(users: seq<string>, i: nat)
    requires i < |users|
    ensures users[..i + 1] == users[..i] + [users[i]]
    ensures Elements(users[..i + 1]) == Elements(users[..i]) + {users[i]}
  {
    assert users[..i + 1] == users[..i] + [users[i]];
  }

  /** The records of a table are data when they agree key by key. */
  lemma UsersDataIs(m: map<string, IntermediateUser>, data: map<string, UserData>)
    requires forall k :: k in m <==> k in data
    requires forall k :: k in m ==> m[k].Data() == data[k]
    ensures UsersData(m) == data
  {
  }

  /** The username of every user object in a table. */
  function UsernamesOf(m: map<string, IntermediateUser>): (r: map<string, string>)
    reads m.Values
    ensures r.Keys == m.Keys
  {
    map k | k in m :: m[k].Username
  }

  /** No user object is filed under two keys. */
  predicate DistinctUsers(m: map<string, IntermediateUser>) {
    forall k, k' :: k in m && k' in m && k != k' ==> m[k] != m[k']
  }

  /** The fields of every channel object of a list. */
  function ChannelsData(cs: seq<IntermediateChannel>): seq<ChannelData>
    reads cs
  {
    if cs == [] then [] else ChannelsData(cs[..|cs| - 1]) + [cs[|cs| - 1].Data()]
  }

  /** Channel i of the list gives record i. */
  lemma {:induction false} ChannelsDataShape(cs: seq<IntermediateChannel>)
    ensures |ChannelsData(cs)| == |cs|
    ensures forall i :: 0 <= i < |cs| ==> ChannelsData(cs)[i] == cs[i].Data()
  {
    if cs != [] {
      ChannelsDataShape(cs[..|cs| - 1]);
    }
  }

  /** Everything an Intermediate holds besides its user table. */
  datatype Tables = Tables(
    PublicChannels: seq<IntermediateChannel>,
    PrivateChannels: seq<IntermediateChannel>,
    GroupChannels: seq<IntermediateChannel>,
    DirectChannels: seq<IntermediateChannel>,
    Posts: seq<IntermediatePost>,
    UserOverrides: map<string, UserData>,
    ChannelOverrides: map<string, ChannelData>)

  lemma ChannelsDataSnoc(cs: seq<IntermediateChannel>, c: IntermediateChannel)
    ensures ChannelsData(cs + [c]) == ChannelsData(cs) + [c.Data()]
  {
    assert (cs + [c])[..|cs|] == cs;
  }

  /** No channel object occurs twice in a list. */
  predicate DistinctChannels(cs: seq<IntermediateChannel>) {
    forall j, k :: 0 <= j < k < |cs| ==> cs[j] != cs[k]
  }

  lemma DistinctChannelsSnoc(cs: seq<IntermediateChannel>, c: IntermediateChannel)
    requires DistinctChannels(cs) && c !in cs
    ensures DistinctChannels(cs + [c])
  {
  }

  class Intermediate {
    var PublicChannels: seq<IntermediateChannel>
    var PrivateChannels: seq<IntermediateChannel>
    var GroupChannels: seq<IntermediateChannel>
    var DirectChannels: seq<IntermediateChannel>
    var UsersById: map<string, IntermediateUser>
    var Posts: seq<IntermediatePost>
    var UserOverrides: map<string, UserData>
    var ChannelOverrides: map<string, ChannelData>

    constructor ()
      ensures PublicChannels == PrivateChannels == GroupChannels == DirectChannels == []
      ensures UsersById == map[] && Posts == [] && UserOverrides == map[] && ChannelOverrides == map[]
    {
      PublicChannels := [];
      PrivateChannels := [];
      GroupChannels := [];
      DirectChannels := [];
      UsersById := map[];
      Posts := [];
      UserOverrides := map[];
      ChannelOverrides := map[];
    }

    function AllButUsers(): Tables
      reads this
    {
      Tables(PublicChannels, PrivateChannels, GroupChannels, DirectChannels, Posts, UserOverrides, ChannelOverrides)
    }
  }

  /** One more Slack user in TransformedUsers: its record is filed under its
      key. */
  lemma UsersStep(overrides: map<string, UserData>, users: seq<SlackUser>, i: nat, newId: nat -> string, start: nat,
                  n: nat, record: UserData)
    requires i < |users| && n == start + i && record == TransformedUser(overrides, users[i], IdAt(newId, n))
    ensures TransformedUsers(overrides, users[..i + 1], newId, start)
         == TransformedUsers(overrides, users[..i], newId, start)[record.Id := record]
  {
    assert users[..i + 1][..i] == users[..i];
  }

  // ---------------------------------------------------------------------------
  // Helpers of the transform that only read
  // ---------------------------------------------------------------------------

  /** filterValidMembers. */
  method FilterValidMembers(members: seq<string>, users: map<string, IntermediateUser>) returns (valid: seq<string>)
    ensures valid == ValidMembers(members, users.Keys)
  {
    valid := [];
    var i := 0;
    while i < |members|
      invariant 0 <= i <= |members|
      invariant valid == ValidMembers(members[..i], users.Keys)
    {
      assert members[..i + 1][..i] == members[..i];
      if members[i] in users {
        valid := valid + [members[i]];
      }
      i := i + 1;
    }
    assert members[..i] == members;
  }

  /** The scan for one member id, which stops at the first match. */
  method ContainsMember(members: seq<string>, id: string) returns (found: bool)
    ensures found <==> id in members
  {
    found := false;
    var i := 0;
    while i < |members|
      invariant 0 <= i <= |members|
      invariant id !in members[..i]
    {
      if members[i] == id {
        found := true;
        return;
      }
      assert members[..i + 1] == members[..i] + [members[i]];
      i := i + 1;
    }
    assert members[..i] == members;
  }

  /** The names of the channels of a list that have userId as a member. */
  method NamesOfChannelsWith(userId: string, channels: seq<IntermediateChannel>) returns (names: seq<string>)
    ensures names == ChannelNamesWith(userId, ChannelsData(channels))
  {
    names := [];
    var i := 0;
    while i < |channels|
      invariant 0 <= i <= |channels|
      invariant names == ChannelNamesWith(userId, ChannelsData(channels[..i]))
    {
      assert channels[..i + 1] == channels[..i] + [channels[i]];
      ChannelsDataSnoc(channels[..i], channels[i]);
      ghost var done := ChannelsData(channels[..i]);
      assert (done + [channels[i].Data()])[..|done|] == done;
      var member := ContainsMember(channels[i].Members, userId);
      if member {
        names := names + [channels[i].Name];
      }
      i := i + 1;
    }
    assert channels[..i] == channels;
  }

  /** The usernames of the members found in a user table, in order. */
  method MemberUsernames(members: seq<string>, users: map<string, IntermediateUser>) returns (names: seq<string>)
    ensures names == KnownUsernames(members, UsernamesOf(users))
  {
    names := [];
    var i := 0;
    while i < |members|
      invariant 0 <= i <= |members|
      invariant names == KnownUsernames(members[..i], UsernamesOf(users))
    {
      assert members[..i + 1][..i] == members[..i];
      if members[i] in users {
        names := names + [users[members[i]].Username];
      }
      i := i + 1;
    }
    assert members[..i] == members;
  }

  /** The channel reached by an original name: IndexByName(m, cs) files
      every channel of cs under its original name, later ones replacing
      earlier ones. */
  function IndexByName(m: map<string, IntermediateChannel>, cs: seq<IntermediateChannel>): map<string, IntermediateChannel>
    reads cs
  {
    if cs == [] then m
    else IndexByName(m, cs[..|cs| - 1])[cs[|cs| - 1].OriginalName := cs[|cs| - 1]]
  }

  /** The original names of a list of channels. */
  function OriginalNames(cs: seq<IntermediateChannel>): set<string>
    reads cs
  {
    set i | 0 <= i < |cs| :: cs[i].OriginalName
  }

  /** Filing two lists in turn is filing their concatenation. */
  lemma {:induction false} IndexByNameAppend(m: map<string, IntermediateChannel>, a: seq<IntermediateChannel>,
                                             b: seq<IntermediateChannel>)
    ensures IndexByName(IndexByName(m, a), b) == IndexByName(m, a + b)
    decreases |b|
  {
    if b == [] {
      assert a + b == a;
    } else {
      var n := |b| - 1;
      assert (a + b)[..|a| + n] == a + b[..n];
      IndexByNameAppend(m, a, b[..n]);
    }
  }

  /** Every original name is a key, the key set grows by exactly those, and
      a name maps to the last channel that has it. */
  lemma {:induction false} IndexByNameKeys(m: map<string, IntermediateChannel>, cs: seq<IntermediateChannel>)
    ensures IndexByName(m, cs).Keys == m.Keys + OriginalNames(cs)
  {
    if cs != [] {
      var n := |cs| - 1;
      IndexByNameKeys(m, cs[..n]);
      forall x | x in OriginalNames(cs) ensures x in OriginalNames(cs[..n]) + {cs[n].OriginalName} {
        var i :| 0 <= i < |cs| && cs[i].OriginalName == x;
        if i < n {
          assert cs[..n][i] == cs[i];
        }
      }
      forall x | x in OriginalNames(cs[..n]) ensures x in OriginalNames(cs) {
        var i :| 0 <= i < n && cs[..n][i].OriginalName == x;
        assert cs[i].OriginalName == x;
      }
    }
  }

  lemma {:induction false} IndexByNameLast(m: map<string, IntermediateChannel>, cs: seq<IntermediateChannel>, i: nat)
    requires i < |cs|
    requires forall j :: i < j < |cs| ==> cs[j].OriginalName != cs[i].OriginalName
    ensures cs[i].OriginalName in IndexByName(m, cs) && IndexByName(m, cs)[cs[i].OriginalName] == cs[i]
  {
    var n := |cs| - 1;
    if i < n {
      assert cs[..n][i] == cs[i];
      IndexByNameLast(m, cs[..n], i);
    }
  }

  /** One of the four loops of buildChannelsByOriginalNameMap. */
  method FileByOriginalName(m: map<string, IntermediateChannel>, cs: seq<IntermediateChannel>)
    returns (r: map<string, IntermediateChannel>)
    ensures r == IndexByName(m, cs)
  {
    r := m;
    var i := 0;
    while i < |cs|
      invariant 0 <= i <= |cs|
      invariant r == IndexByName(m, cs[..i])
    {
      assert cs[..i + 1][..i] == cs[..i];
      r := r[cs[i].OriginalName := cs[i]];
      i := i + 1;
    }
    assert cs[..i] == cs;
  }

  /** buildChannelsByOriginalNameMap: public, private, group and direct
      channels filed in that order under their original names. */
  method BuildChannelsByOriginalNameMap(intermediate: Intermediate) returns (r: map<string, IntermediateChannel>)
    ensures r == IndexByName(map[], intermediate.PublicChannels + intermediate.PrivateChannels
                                     + intermediate.GroupChannels + intermediate.DirectChannels)
  {
    r := FileByOriginalName(map[], intermediate.PublicChannels);
    r := FileByOriginalName(r, intermediate.PrivateChannels);
    IndexByNameAppend(map[], intermediate.PublicChannels, intermediate.PrivateChannels);
    r := FileByOriginalName(r, intermediate.GroupChannels);
    IndexByNameAppend(map[], intermediate.PublicChannels + intermediate.PrivateChannels, intermediate.GroupChannels);
    r := FileByOriginalName(r, intermediate.DirectChannels);
    IndexByNameAppend(map[], intermediate.PublicChannels + intermediate.PrivateChannels + intermediate.GroupChannels,
                      intermediate.DirectChannels);
  }

  // ---------------------------------------------------------------------------
  // Threads
  // ---------------------------------------------------------------------------

  /** A post that answers another one: its thread is not its own. */
  predicate IsReply(original: SlackPost) {
    original.ThreadTS != "" && original.ThreadTS != original.TimeStamp
  }

  /** The root post a reply is appended to, when it is known. */
  function ReplyRoot(original: SlackPost, threads: map<string, IntermediatePost>): set<IntermediatePost> {
    if IsReply(original) && original.ThreadTS in threads then {threads[original.ThreadTS]} else {}
  }

  /** The timestamps at or after n. */
  function Later(timestamps: set<int>, n: int): set<int> {
    set x | x in timestamps && x >= n
  }

  lemma LaterShrinks(timestamps: set<int>, n: int)
    requires n in timestamps
    ensures |Later(timestamps, n + 1)| < |Later(timestamps, n)|
  {
    assert Later(timestamps, n) == Later(timestamps, n + 1) + {n};
  }

  /** The timestamp loop of AddPostToThreads: the first instant at or after
      start that no post of the channel has taken yet. */
  method FirstFree(start: int, timestamps: set<int>) returns (free: int)
    ensures start <= free && free !in timestamps
    ensures forall t :: start <= t < free ==> t in timestamps
  {
    free := start;
    while free in timestamps
      invariant start <= free
      invariant forall t :: start <= t < free ==> t in timestamps
      decreases |Later(timestamps, free)|
    {
      LaterShrinks(timestamps, free);
      free := free + 1;
    }
  }

  /** AddPostToThreads. The maps threads and timestamps, which Go passes by
      reference, are passed in and returned. */
  method AddPostToThreads(original: SlackPost, post: IntermediatePost, threads: map<string, IntermediatePost>,
                          channel: IntermediateChannel, timestamps: set<int>)
    returns (threads': map<string, IntermediatePost>, timestamps': set<int>)
    modifies post, ReplyRoot(original, threads)
    ensures post.IsDirect <==> IsDirectOrGroup(channel.Type)
    ensures post.ChannelMembers == if post.IsDirect then channel.MembersUsernames else old(post.ChannelMembers)
    // the timestamp is moved up to the first free one
    ensures old(post.CreateAt) <= post.CreateAt && post.CreateAt !in timestamps
    ensures forall t :: old(post.CreateAt) <= t < post.CreateAt ==> t in timestamps
    ensures timestamps' == timestamps + {post.CreateAt}
    // a reply goes to the end of its root's replies; any other post is a root
    ensures IsReply(original) ==> threads' == threads
    ensures IsReply(original) && original.ThreadTS in threads ==>
      threads[original.ThreadTS].Replies == old(threads[original.ThreadTS].Replies) + [post]
    ensures !IsReply(original) ==> threads' == threads[original.TimeStamp := post]
    ensures post !in ReplyRoot(original, threads) ==> post.Replies == old(post.Replies)
    ensures post.User == old(post.User) && post.Channel == old(post.Channel) && post.Message == old(post.Message)
    ensures post.Attachments == old(post.Attachments) && post.Reactions == old(post.Reactions)
    // of the root, only its replies change
    ensures forall p :: p in ReplyRoot(original, threads) && p != post ==>
      p.User == old(p.User) && p.Channel == old(p.Channel) && p.Message == old(p.Message) &&
      p.CreateAt == old(p.CreateAt) && p.Attachments == old(p.Attachments) && p.IsDirect == old(p.IsDirect) &&
      p.ChannelMembers == old(p.ChannelMembers) && p.Reactions == old(p.Reactions)
  {
    if channel.Type == Direct || channel.Type == Group {
      post.IsDirect := true;
      post.ChannelMembers := channel.MembersUsernames;
    } else {
      post.IsDirect := false;
    }

    var createAt := FirstFree(post.CreateAt, timestamps);
    post.CreateAt := createAt;
    timestamps' := timestamps + {createAt};

    if original.ThreadTS != "" && original.ThreadTS != original.TimeStamp {
      threads' := threads;
      if original.ThreadTS !in threads {
        return;
      }
      var rootPost := threads[original.ThreadTS];
      rootPost.Replies := rootPost.Replies + [post];
      return;
    }

    if original.TimeStamp == original.ThreadTS {
      threads' := threads[original.ThreadTS := post];
      return;
    }

    threads' := threads[original.TimeStamp := post];
  }

  /** One field of ApplyChannelOverrides: a non-empty override replaces the
      field, and an override of "-" empties it. */
  method Overridden(field: string, value: string) returns (r: string)
    ensures r == OverrideField(field, value, true)
  {
    r := field;
    if value != "" {
      r := value;
      if r == "-" {
        r := "";
      }
    }
  }

  // ---------------------------------------------------------------------------
  // The transformer
  // ---------------------------------------------------------------------------

  class Transformer {
    const Intermediate: Intermediate
    const Ids: IdSource
    const ChannelLimits: Limits
    const ValidName: NameCheck

    constructor (intermediate: Intermediate, ids: IdSource, limits: Limits, validName: NameCheck)
      ensures Intermediate == intermediate && Ids == ids && ChannelLimits == limits && ValidName == validName
    {
      Intermediate := intermediate;
      Ids := ids;
      ChannelLimits := limits;
      ValidName := validName;
    }

    /** No user object is filed under two ids. */
    predicate Valid()
      reads this, Intermediate
    {
      DistinctUsers(Intermediate.UsersById)
    }

    /** ApplyUserOverrides. */
    method ApplyUserOverrides(user: IntermediateUser)
      modifies user
      ensures user.Data() == UserWithOverrides(Intermediate.UserOverrides, old(user.Data()))
    {
      if |Intermediate.UserOverrides| == 0 || user.Username !in Intermediate.UserOverrides {
        return;
      }
      var o := Intermediate.UserOverrides[user.Username];
      var username := user.Username;
      if o.Username != "" {
        username := o.Username;
      }
      assert username == OverrideField(user.Username, o.Username, false);
      var first := user.FirstName;
      if o.FirstName != "" {
        first := o.FirstName;
        if first == "-" {
          first := "";
        }
      }
      assert first == OverrideField(user.FirstName, o.FirstName, true);
      var last := user.LastName;
      if o.LastName != "" {
        last := o.LastName;
        if last == "-" {
          last := "";
        }
      }
      assert last == OverrideField(user.LastName, o.LastName, true);
      var position := user.Position;
      if o.Position != "" {
        position := o.Position;
        if position == "-" {
          position := "";
        }
      }
      assert position == OverrideField(user.Position, o.Position, true);
      var email := user.Email;
      if o.Email != "" {
        email := o.Email;
      }
      assert email == OverrideField(user.Email, o.Email, false);
      var password := user.Password;
      if o.Password != "" {
        password := o.Password;
      }
      assert password == OverrideField(user.Password, o.Password, false);
      assert UserWithOverrides(Intermediate.UserOverrides, user.Data())
          == user.Data().(Username := username, FirstName := first, LastName := last,
                          Position := position, Email := email, Password := password);
      user.SetOverridable(username, first, last, position, email, password);
    }

    /** ApplyChannelOverrides. */
    method ApplyChannelOverrides(channel: IntermediateChannel)
      modifies channel
      ensures channel.Data() == ChannelWithOverrides(Intermediate.ChannelOverrides, old(channel.Data()))
    {
      if |Intermediate.ChannelOverrides| == 0 || channel.Name !in Intermediate.ChannelOverrides {
        return;
      }
      var o := Intermediate.ChannelOverrides[channel.Name];
      var name := Overridden(channel.Name, o.Name);
      var display := Overridden(channel.DisplayName, o.DisplayName);
      var purpose := Overridden(channel.Purpose, o.Purpose);
      var header := Overridden(channel.Header, o.Header);
      var topic := Overridden(channel.Topic, o.Topic);
      channel.SetOverridable(name, display, purpose, header, topic);
    }

    /** The body of the loop of TransformUsers: one user object. */
    method NewUser(user: SlackUser, ghost record: UserData) returns (newUser: IntermediateUser)
      requires record == TransformedUser(Intermediate.UserOverrides, user, IdAt(Ids.NewIdAt, Ids.Issued))
      modifies Ids
      ensures fresh(newUser)
      ensures newUser.Data() == record
      ensures Ids.Issued == old(Ids.Issued) + 1
    {
      var password := Ids.NewId();
      newUser := new IntermediateUser(UserData(user.Id, user.Username, user.Profile.FirstName,
                                               user.Profile.LastName, user.Profile.Title,
                                               user.Profile.Email, password, []));
      if user.IsBot {
        newUser.Id := user.Profile.BotID;
      }
      ApplyUserOverrides(newUser);
      newUser.Sanitise();
    }

    /** One step of TransformUsers: user i of users joins the table m,
        whose records are data. */
    method InsertNewUser(m: map<string, IntermediateUser>, users: seq<SlackUser>, i: nat,
                         ghost start: nat, ghost data: map<string, UserData>)
      returns (m': map<string, IntermediateUser>, ghost data': map<string, UserData>)
      requires i < |users| && Ids.Issued == start + i
      requires data == TransformedUsers(Intermediate.UserOverrides, users[..i], Ids.NewIdAt, start)
      requires forall k :: k in m <==> k in data
      requires forall k :: k in m ==> m[k].Data() == data[k]
      requires DistinctUsers(m)
      modifies Ids
      ensures data' == TransformedUsers(Intermediate.UserOverrides, users[..i + 1], Ids.NewIdAt, start)
      ensures forall k :: k in m' <==> k in data'
      ensures forall k :: k in m' ==> m'[k].Data() == data'[k]
      ensures DistinctUsers(m')
      ensures Ids.Issued == old(Ids.Issued) + 1
      ensures forall k :: k in m' ==> (k in m && m'[k] == m[k]) || fresh(m'[k])
    {
      ghost var overrides := Intermediate.UserOverrides;
      ghost var record := TransformedUser(overrides, users[i], IdAt(Ids.NewIdAt, Ids.Issued));
      UsersStep(overrides, users, i, Ids.NewIdAt, start, Ids.Issued, record);
      data' := TransformedUsers(overrides, users[..i + 1], Ids.NewIdAt, start);
      var newUser := NewUser(users[i], record);
      m' := m[newUser.Id := newUser];
    }

    /** TransformUsers: every Slack user becomes a user object with a fresh
        password, filed under its key; the table replaces the old one. */
    method TransformUsers(users: seq<SlackUser>)
      modifies Intermediate, Ids
      ensures UsersData(Intermediate.UsersById)
           == TransformedUsers(Intermediate.UserOverrides, users, Ids.NewIdAt, old(Ids.Issued))
      ensures forall k :: k in Intermediate.UsersById ==> fresh(Intermediate.UsersById[k])
      ensures Valid()
      ensures Ids.Issued == old(Ids.Issued) + |users|
      ensures Intermediate.AllButUsers() == old(Intermediate.AllButUsers())
    {
      var resultUsers: map<string, IntermediateUser> := map[];
      ghost var data: map<string, UserData> := map[];
      ghost var overrides := Intermediate.UserOverrides;
      ghost var start := Ids.Issued;
      var i := 0;
      while i < |users|
        invariant 0 <= i <= |users|
        invariant Ids.Issued == start + i
        invariant Intermediate.UserOverrides == overrides
        invariant data == TransformedUsers(overrides, users[..i], Ids.NewIdAt, start)
        invariant forall k :: k in resultUsers <==> k in data
        invariant forall k :: k in resultUsers ==> resultUsers[k].Data() == data[k]
        invariant forall k :: k in resultUsers ==> fresh(resultUsers[k])
        invariant DistinctUsers(resultUsers)
        invariant Intermediate.AllButUsers() == old(Intermediate.AllButUsers())
      {
        resultUsers, data := InsertNewUser(resultUsers, users, i, start, data);
        i := i + 1;
      }
      assert users[..i] == users;
      Intermediate.UsersById := resultUsers;
      UsersDataIs(Intermediate.UsersById, data);
    }

    /** The handle TransformChannels gives a kept channel: trimmed, or built
        from its members for a team-internal direct or group channel; padded
        when a single byte; the lower-cased id when invalid. */
    method ChannelName(ch: SlackChannel, validMembers: seq<string>, teamInternalOnly: bool) returns (name: string)
      ensures name == TransformedName(ValidName, ch, KnownUsernames(validMembers, UsernamesOf(Intermediate.UsersById)),
                                      teamInternalOnly)
    {
      name := Trim(ch.Name);
      if teamInternalOnly && (ch.Type == Direct || ch.Type == Group) {
        name := Lower(ch.Id) + "-";
        if ch.Type == Direct {
          name := name + "direct-";
        } else {
          name := name + "group-";
        }
        var validMemberNames := MemberUsernames(validMembers, Intermediate.UsersById);
        name := name + Join(SortStrings(validMemberNames), "-");
      }
      if Utf8Len(name) == 1 {
        name := "slack-channel-" + name;
      }
      if !ValidName(name) {
        name := Lower(ch.Id);
      }
    }

    /** One channel of TransformChannels; None when it is dropped. The ghost
        parameter usernames is the username of every user of the table. */
    method TransformChannel(channel: SlackChannel, teamInternalOnly: bool, ghost usernames: map<string, string>)
      returns (r: Option<IntermediateChannel>)
      requires usernames == UsernamesOf(Intermediate.UsersById)
      ensures var spec := TransformedChannel(ChannelLimits, ValidName, Intermediate.ChannelOverrides, usernames,
                                             teamInternalOnly, channel);
        && (r.None? <==> spec.None?)
        && (r.Some? ==> fresh(r.value) && r.value.Data() == spec.value)
    {
      var validMembers := FilterValidMembers(channel.Members, Intermediate.UsersById);
      if (channel.Type == Direct || channel.Type == Group) && |validMembers| <= 1 {
        return None;
      }
      var newChannel := KeptChannel(channel, validMembers, teamInternalOnly, usernames);
      r := Some(newChannel);
    }

    /** The channel object of a kept channel before overrides and sanitisation:
        demoted when a group over the size limit, named, and made private when
        a team-internal direct or group channel. */
    method NewChannel(channel: SlackChannel, validMembers: seq<string>, teamInternalOnly: bool,
                      ghost usernames: map<string, string>)
      returns (newChannel: IntermediateChannel)
      requires usernames == UsernamesOf(Intermediate.UsersById)
      ensures fresh(newChannel)
      ensures newChannel.Data() == NewChannelData(ChannelLimits, ValidName, usernames, teamInternalOnly, channel,
                                                  validMembers)
    {
      var ch := channel;
      if ch.Type == Group && |validMembers| > ChannelLimits.ChannelGroupMaxUsers {
        ch := ch.(Name := ch.Purpose.Value, Type := Private);
      }
      var name := ChannelName(ch, validMembers, teamInternalOnly);
      newChannel := new IntermediateChannel(ChannelData("", OriginalName(ch), name, name, validMembers, [],
                                                        ch.Purpose.Value, ch.Topic.Value, "", ch.Type));
      if teamInternalOnly && (newChannel.Type == Direct || newChannel.Type == Group) {
        newChannel.Type := Private;
      }
    }

    /** The channel object TransformChannels builds for a channel it keeps. */
    method KeptChannel(channel: SlackChannel, validMembers: seq<string>, teamInternalOnly: bool,
                       ghost usernames: map<string, string>)
      returns (newChannel: IntermediateChannel)
      requires usernames == UsernamesOf(Intermediate.UsersById)
      ensures fresh(newChannel)
      ensures newChannel.Data() == SanitisedChannel(ChannelLimits, ValidName,
        OpenOrPrivateOverrides(Intermediate.ChannelOverrides,
          NewChannelData(ChannelLimits, ValidName, usernames, teamInternalOnly, channel, validMembers)))
    {
      newChannel := NewChannel(channel, validMembers, teamInternalOnly, usernames);
      if newChannel.Type == Open || newChannel.Type == Private {
        ApplyChannelOverrides(newChannel);
      }
      newChannel.Sanitise(ChannelLimits, ValidName);
    }

    /** TransformChannels: the channels kept, as new channel objects, in order. */
    method TransformChannels(channels: seq<SlackChannel>, teamInternalOnly: bool) returns (r: seq<IntermediateChannel>)
      ensures ChannelsData(r) == TransformedChannels(ChannelLimits, ValidName, Intermediate.ChannelOverrides,
                                                     UsernamesOf(Intermediate.UsersById), teamInternalOnly, channels)
      ensures forall c :: c in r ==> fresh(c)
      ensures DistinctChannels(r)
    {
      ghost var usernames := UsernamesOf(Intermediate.UsersById);
      ghost var spec: seq<ChannelData> := [];
      r := [];
      var i := 0;
      while i < |channels|
        invariant 0 <= i <= |channels|
        invariant usernames == UsernamesOf(Intermediate.UsersById)
        invariant spec == TransformedChannels(ChannelLimits, ValidName, Intermediate.ChannelOverrides,
                                              usernames, teamInternalOnly, channels[..i])
        invariant ChannelsData(r) == spec
        invariant forall c :: c in r ==> fresh(c)
        invariant DistinctChannels(r)
      {
        r, spec := AppendTransformed(r, channels, i, teamInternalOnly, usernames, spec);
        i := i + 1;
      }
      assert channels[..i] == channels;
    }

    /** The loop body of TransformChannels: channel i, transformed, is added
        to the channels kept so far unless it is dropped. */
    method AppendTransformed(r: seq<IntermediateChannel>, channels: seq<SlackChannel>, i: nat, teamInternalOnly: bool,
                             ghost usernames: map<string, string>, ghost spec: seq<ChannelData>)
      returns (r': seq<IntermediateChannel>, ghost spec': seq<ChannelData>)
      requires i < |channels|
      requires usernames == UsernamesOf(Intermediate.UsersById)
      requires spec == TransformedChannels(ChannelLimits, ValidName, Intermediate.ChannelOverrides,
                                           usernames, teamInternalOnly, channels[..i])
      requires ChannelsData(r) == spec
      requires DistinctChannels(r)
      ensures usernames == UsernamesOf(Intermediate.UsersById)
      ensures spec' == TransformedChannels(ChannelLimits, ValidName, Intermediate.ChannelOverrides,
                                           usernames, teamInternalOnly, channels[..i + 1])
      ensures ChannelsData(r') == spec'
      ensures forall c :: c in r' ==> c in r || fresh(c)
      ensures DistinctChannels(r')
    {
      assert channels[..i + 1][..i] == channels[..i];
      TransformedChannelsSnoc(ChannelLimits, ValidName, Intermediate.ChannelOverrides,
                              usernames, teamInternalOnly, channels[..i + 1]);
      var newChannel := TransformChannel(channels[i], teamInternalOnly, usernames);
      r', spec' := r, spec;
      if newChannel.Some? {
        ChannelsDataSnoc(r, newChannel.value);
        DistinctChannelsSnoc(r, newChannel.value);
        spec' := spec + [newChannel.value.Data()];
        r' := r + [newChannel.value];
      }
    }

    /** PopulateUserMemberships: every user's memberships become the names of
        the public, then the private channels that list it. */
    method PopulateUserMemberships()
      requires Valid()
      modifies Intermediate.UsersById.Values
      ensures forall k :: k in Intermediate.UsersById ==>
        Intermediate.UsersById[k].Data() == old(Intermediate.UsersById[k].Data()).(Memberships :=
          UserMemberships(k, ChannelsData(Intermediate.PublicChannels), ChannelsData(Intermediate.PrivateChannels)))
    {
      var users := Intermediate.UsersById;
      ghost var public := ChannelsData(Intermediate.PublicChannels);
      ghost var private := ChannelsData(Intermediate.PrivateChannels);
      ghost var before := map k | k in users :: users[k].Data();
      var todo := users.Keys;
      while todo != {}
        invariant todo <= users.Keys
        invariant DistinctUsers(users)
        invariant ChannelsData(Intermediate.PublicChannels) == public
        invariant ChannelsData(Intermediate.PrivateChannels) == private
        invariant forall k :: k in users && k !in todo ==>
          users[k].Data() == before[k].(Memberships := UserMemberships(k, public, private))
        invariant forall k :: k in todo ==> users[k].Data() == before[k]
      {
        var userId :| userId in todo;
        var memberships := MembershipsOf(userId, public, private);
        PopulateUser(users, todo, userId, memberships, before, public, private);
        todo := todo - {userId};
      }
    }

    /** The names of the public, then the private channels listing a user. */
    method MembershipsOf(userId: string, ghost public: seq<ChannelData>, ghost private: seq<ChannelData>)
      returns (memberships: seq<string>)
      requires ChannelsData(Intermediate.PublicChannels) == public
      requires ChannelsData(Intermediate.PrivateChannels) == private
      ensures memberships == UserMemberships(userId, public, private)
      ensures ChannelsData(Intermediate.PublicChannels) == public
      ensures ChannelsData(Intermediate.PrivateChannels) == private
    {
      var publicNames := NamesOfChannelsWith(userId, Intermediate.PublicChannels);
      var privateNames := NamesOfChannelsWith(userId, Intermediate.PrivateChannels);
      memberships := publicNames + privateNames;
    }

    /** The loop body of PopulateUserMemberships: user userId, still to do,
        gets its memberships; every other user keeps its fields. */
    method PopulateUser(users: map<string, IntermediateUser>, todo: set<string>, userId: string, memberships: seq<string>,
                        ghost before: map<string, UserData>, ghost public: seq<ChannelData>, ghost private: seq<ChannelData>)
      requires userId in todo && todo <= users.Keys && users.Keys <= before.Keys && DistinctUsers(users)
      requires memberships == UserMemberships(userId, public, private)
      requires ChannelsData(Intermediate.PublicChannels) == public
      requires ChannelsData(Intermediate.PrivateChannels) == private
      requires forall k :: k in users && k !in todo ==>
        users[k].Data() == before[k].(Memberships := UserMemberships(k, public, private))
      requires forall k :: k in todo ==> users[k].Data() == before[k]
      modifies users[userId]
      ensures ChannelsData(Intermediate.PublicChannels) == public
      ensures ChannelsData(Intermediate.PrivateChannels) == private
      ensures forall k :: k in users && k !in todo - {userId} ==>
        users[k].Data() == before[k].(Memberships := UserMemberships(k, public, private))
      ensures forall k :: k in todo - {userId} ==> users[k].Data() == before[k]
    {
      users[userId].SetMemberships(memberships);
    }

    /** The usernames of the members of each channel of a list. */
    method PopulateMembersUsernames(cs: seq<IntermediateChannel>)
      modifies cs
      ensures forall i :: 0 <= i < |cs| ==>
        cs[i].Data() == old(cs[i].Data()).(MembersUsernames :=
          KnownUsernames(old(cs[i].Members), UsernamesOf(Intermediate.UsersById)))
    {
      ghost var usernames := UsernamesOf(Intermediate.UsersById);
      ghost var before := ChannelsData(cs);
      ChannelsDataShape(cs);
      var j := 0;
      while j < |cs|
        invariant 0 <= j <= |cs|
        invariant UsernamesOf(Intermediate.UsersById) == usernames
        invariant forall i :: 0 <= i < |cs| ==>
          cs[i].Data().(MembersUsernames := before[i].MembersUsernames) == before[i]
        invariant forall i :: 0 <= i < j ==>
          cs[i].MembersUsernames == KnownUsernames(cs[i].Members, usernames)
      {
        PopulateMembers(cs, j, usernames, before);
        j := j + 1;
      }
    }

    /** The loop body of PopulateMembersUsernames: channel j gets the
        usernames of its known members. */
    method PopulateMembers(cs: seq<IntermediateChannel>, j: nat, ghost usernames: map<string, string>,
                           ghost before: seq<ChannelData>)
      requires j < |cs| == |before|
      requires UsernamesOf(Intermediate.UsersById) == usernames
      requires forall i :: 0 <= i < |cs| ==>
        cs[i].Data().(MembersUsernames := before[i].MembersUsernames) == before[i]
      requires forall i :: 0 <= i < j ==>
        cs[i].MembersUsernames == KnownUsernames(cs[i].Members, usernames)
      modifies cs[j]
      ensures UsernamesOf(Intermediate.UsersById) == usernames
      ensures forall i :: 0 <= i < |cs| ==>
        cs[i].Data().(MembersUsernames := before[i].MembersUsernames) == before[i]
      ensures forall i :: 0 <= i < j + 1 ==>
        cs[i].MembersUsernames == KnownUsernames(cs[i].Members, usernames)
    {
      var members := MemberUsernames(cs[j].Members, Intermediate.UsersById);
      cs[j].SetMembersUsernames(members);
    }

    /** PopulateChannelMemberships: group and direct channels get the
        usernames of their known members. */
    method PopulateChannelMemberships()
      modifies Intermediate.GroupChannels, Intermediate.DirectChannels
      ensures forall i :: 0 <= i < |Intermediate.GroupChannels| ==>
        var c := Intermediate.GroupChannels[i];
        c.Data() == old(c.Data()).(MembersUsernames := KnownUsernames(old(c.Members), UsernamesOf(Intermediate.UsersById)))
      ensures forall i :: 0 <= i < |Intermediate.DirectChannels| ==>
        var c := Intermediate.DirectChannels[i];
        c.Data() == old(c.Data()).(MembersUsernames := KnownUsernames(old(c.Members), UsernamesOf(Intermediate.UsersById)))
    {
      PopulateMembersUsernames(Intermediate.GroupChannels);
      PopulateMembersUsernames(Intermediate.DirectChannels);
    }

    /** CreateIntermediateUser: a placeholder for a user missing from the
        export, filed under its id. */
    method CreateIntermediateUser(userId: string)
      requires Valid()
      modifies Intermediate, Ids
      ensures userId in Intermediate.UsersById
      ensures Intermediate.UsersById == old(Intermediate.UsersById)[userId := Intermediate.UsersById[userId]]
      ensures fresh(Intermediate.UsersById[userId])
      ensures Intermediate.UsersById[userId].Data()
           == PlaceholderUser(Intermediate.UserOverrides, userId, IdAt(Ids.NewIdAt, old(Ids.Issued)))
      ensures Ids.Issued == old(Ids.Issued) + 1
      ensures Valid()
      ensures Intermediate.AllButUsers() == old(Intermediate.AllButUsers())
    {
      var password := Ids.NewId();
      var newUser := new IntermediateUser(UserData(userId, Lower(userId), "Deleted", "User", "",
                                                   userId + "@local", password, []));
      ApplyUserOverrides(newUser);
      Intermediate.UsersById := Intermediate.UsersById[userId := newUser];
    }

    /** Every user of the table goes by the name a reaction by its id is
        recorded under, given the usernames names of the table as it was. */
    predicate NamedAfter(names: map<string, string>)
      reads this, Intermediate, Intermediate.UsersById.Values
    {
      && names.Keys <= Intermediate.UsersById.Keys
      && forall k :: k in Intermediate.UsersById ==>
           Intermediate.UsersById[k].Username == ReactingName(Intermediate.UserOverrides, names, k)
    }

    /** The users by id are those of before and the ids added, those of
        before are kept, and every user not in before is a placeholder. */
    ghost predicate GrownFrom(before: map<string, IntermediateUser>, added: set<string>)
      reads this, Intermediate, Intermediate.UsersById.Values
    {
      && (forall k :: k in Intermediate.UsersById <==> k in before || k in added)
      && (forall k :: k in before ==> Intermediate.UsersById[k] == before[k])
      && (forall k {:trigger IsPlaceholder(Intermediate.UserOverrides, k, Intermediate.UsersById[k].Data())} ::
            k in Intermediate.UsersById && k !in before ==> IsPlaceholder(Intermediate.UserOverrides, k, Intermediate.UsersById[k].Data()))
    }

    /** The username a reaction by userId is filed under: that of the user
        with that id, created as a placeholder when missing. The table has
        grown from before by the ids added and grows by userId. */
    method ReactingUsername(userId: string, ghost names: map<string, string>,
                            ghost before: map<string, IntermediateUser>, ghost added: set<string>)
      returns (name: string)
      requires Valid() && NamedAfter(names) && GrownFrom(before, added)
      modifies Intermediate, Ids
      ensures name == ReactingName(Intermediate.UserOverrides, names, userId)
      ensures forall k :: k in Intermediate.UsersById <==> k in old(Intermediate.UsersById) || k == userId
      ensures forall k :: k in old(Intermediate.UsersById) ==> Intermediate.UsersById[k] == old(Intermediate.UsersById)[k]
      ensures GrownFrom(before, added + {userId})
      ensures Valid() && NamedAfter(names)
      ensures Intermediate.AllButUsers() == old(Intermediate.AllButUsers())
    {
      if userId !in Intermediate.UsersById {
        ghost var mid := Intermediate.UsersById;
        CreateIntermediateUser(userId);
        PlaceholderUsername(Intermediate.UserOverrides, userId, IdAt(Ids.NewIdAt, old(Ids.Issued)), "");
        assert GrownFrom(before, added + {userId}) by {
          PlaceholderRecognised(Intermediate.UserOverrides, userId, IdAt(Ids.NewIdAt, old(Ids.Issued)));
          forall k | k in Intermediate.UsersById && k !in before
            ensures IsPlaceholder(Intermediate.UserOverrides, k, Intermediate.UsersById[k].Data())
          {
            if k != userId {
              assert Intermediate.UsersById[k] == mid[k];
            }
          }
        }
      }
      var user := Intermediate.UsersById[userId];
      name := user.Username;
    }

    /** The import entries for the users of one reaction. */
    method UserReactionsOf(users: seq<string>, createAt: int, emoji: string, ghost names: map<string, string>)
      returns (part: seq<ReactionImportData>)
      requires Valid() && NamedAfter(names)
      modifies Intermediate, Ids
      ensures part == UserReactions(Intermediate.UserOverrides, names, users, createAt, emoji)
      ensures forall k :: k in Intermediate.UsersById <==> k in old(Intermediate.UsersById) || k in users
      ensures forall k :: k in old(Intermediate.UsersById) ==> Intermediate.UsersById[k] == old(Intermediate.UsersById)[k]
      ensures forall k :: k in Intermediate.UsersById && k !in old(Intermediate.UsersById) ==>
        IsPlaceholder(Intermediate.UserOverrides, k, Intermediate.UsersById[k].Data())
      ensures Valid() && NamedAfter(names)
      ensures Intermediate.AllButUsers() == old(Intermediate.AllButUsers())
    {
      ghost var overrides := Intermediate.UserOverrides;
      part := [];
      var i := 0;
      while i < |users|
        invariant 0 <= i <= |users|
        invariant Valid() && NamedAfter(names)
        invariant Intermediate.AllButUsers() == old(Intermediate.AllButUsers())
        invariant Intermediate.UserOverrides == overrides
        invariant part == UserReactions(overrides, names, users[..i], createAt, emoji)
        invariant GrownFrom(old(Intermediate.UsersById), Elements(users[..i]))
      {
        PrefixSnoc(users, i);
        UserReactionsSnoc(overrides, names, users, i, createAt, emoji);
        var name := ReactingUsername(users[i], names, old(Intermediate.UsersById), Elements(users[..i]));
        part := part + [ReactionImportData(name, createAt + 1, emoji)];
        i := i + 1;
      }
      assert users[..i] == users;
    }

    /** SlackConvertReactions: one import entry per (reaction, user) pair,
        named after the user's username and created one millisecond after
        the post; a user missing from the table is created on the way. */
    method SlackConvertReactions(reactions: Option<seq<SlackReaction>>, postCreateAt: int)
      returns (r: Option<seq<ReactionImportData>>)
      requires Valid()
      modifies Intermediate, Ids
      ensures reactions.None? ==> r.None? && Intermediate.UsersById == old(Intermediate.UsersById)
      ensures reactions.Some? ==>
        r == Some(ExpandReactions(Intermediate.UserOverrides, old(UsernamesOf(Intermediate.UsersById)), reactions.value, postCreateAt))
      ensures forall k :: k in Intermediate.UsersById <==>
        k in old(Intermediate.UsersById) || (reactions.Some? && k in ReactingIds(reactions.value))
      ensures forall k :: k in old(Intermediate.UsersById) ==> Intermediate.UsersById[k] == old(Intermediate.UsersById)[k]
      ensures forall k :: k in Intermediate.UsersById && k !in old(Intermediate.UsersById) ==>
        IsPlaceholder(Intermediate.UserOverrides, k, Intermediate.UsersById[k].Data())
      ensures NamedAfter(old(UsernamesOf(Intermediate.UsersById)))
      ensures Valid()
      ensures Intermediate.AllButUsers() == old(Intermediate.AllButUsers())
    {
      ghost var names := UsernamesOf(Intermediate.UsersById);
      if reactions.None? {
        return None;
      }
      var rs := reactions.value;
      ghost var overrides := Intermediate.UserOverrides;
      var ret := [];
      var i := 0;
      while i < |rs|
        invariant 0 <= i <= |rs|
        invariant Valid() && NamedAfter(names)
        invariant Intermediate.AllButUsers() == old(Intermediate.AllButUsers())
        invariant Intermediate.UserOverrides == overrides
        invariant ret == ExpandReactions(overrides, names, rs[..i], postCreateAt)
        invariant forall k :: k in Intermediate.UsersById <==> k in old(Intermediate.UsersById) || k in ReactingIds(rs[..i])
        invariant forall k :: k in old(Intermediate.UsersById) ==> Intermediate.UsersById[k] == old(Intermediate.UsersById)[k]
        invariant forall k :: k in Intermediate.UsersById && k !in old(Intermediate.UsersById) ==>
          IsPlaceholder(overrides, k, Intermediate.UsersById[k].Data())
      {
        ReactionsSnoc(overrides, names, rs, i, postCreateAt);
        var emojiName := SlackConvertEmojiName(rs[i].Name);
        var part := UserReactionsOf(rs[i].Users, postCreateAt, emojiName, names);
        ret := ret + part;
        i := i + 1;
      }
      assert rs[..i] == rs;
      r := Some(ret);
    }
  }
}
