/** The value-level meaning of the transform from a Slack export to the
    intermediate records: user and channel overrides, sanitisation, the
    channel rules, memberships, reactions. The classes in module
    Intermediate are proved against these functions. */
module TransformSpec {
  import opened Wrappers
  import opened Text
  import opened Export
  import opened Emoji

  /** The fields of an IntermediateUser. */
  datatype UserData = UserData(
    Id: string,
    Username: string,
    FirstName: string,
    LastName: string,
    Position: string,
    Email: string,
    Password: string,
    Memberships: seq<string>)

  /** The fields of an IntermediateChannel. */
  datatype ChannelData = ChannelData(
    Id: string,
    OriginalName: string,
    Name: string,
    DisplayName: string,
    Members: seq<string>,
    MembersUsernames: seq<string>,
    Purpose: string,
    Header: string,
    Topic: string,
    Type: ChannelType)

  /** The Mattermost limits the transform enforces (model.ChannelNameMaxLength
      and the others); their values belong to the Mattermost server. */
  datatype Limits = Limits(
    ChannelNameMaxLength: nat,
    ChannelDisplayNameMaxRunes: nat,
    ChannelPurposeMaxRunes: nat,
    ChannelHeaderMaxRunes: nat,
    ChannelGroupMaxUsers: nat)

  /** isValidChannelNameCharacters, which belongs to the Mattermost server. */
  type NameCheck = string -> bool

  /** One reaction of the Mattermost import format. */
  datatype ReactionImportData = ReactionImportData(User: string, CreateAt: int, EmojiName: string)

  // ---------------------------------------------------------------------------
  // Overrides
  // ---------------------------------------------------------------------------

  /** How one override field acts on one target field: an empty value keeps
      the target; any other value replaces it, except that "-" clears the
      target where dashClears holds. */
  predicate OverriddenTo(before: string, value: string, dashClears: bool, after: string) {
    && (value == "" ==> after == before)
    && (value != "" && !(dashClears && value == "-") ==> after == value)
    && (value != "" && dashClears && value == "-" ==> after == "")
  }

  function OverrideField(target: string, value: string, dashClears: bool): string {
    if value == "" then target
    else if dashClears && value == "-" then ""
    else value
  }

  /** ApplyUserOverrides: the override keyed by the user's Username, if any. */
  function UserWithOverrides(overrides: map<string, UserData>, u: UserData): (r: UserData)
    ensures u.Username !in overrides ==> r == u
    ensures u.Username in overrides ==>
      var o := overrides[u.Username];
      && OverriddenTo(u.Username, o.Username, false, r.Username)
      && OverriddenTo(u.FirstName, o.FirstName, true, r.FirstName)
      && OverriddenTo(u.LastName, o.LastName, true, r.LastName)
      && OverriddenTo(u.Position, o.Position, true, r.Position)
      && OverriddenTo(u.Email, o.Email, false, r.Email)
      && OverriddenTo(u.Password, o.Password, false, r.Password)
    ensures r.Id == u.Id && r.Memberships == u.Memberships
  {
    if |overrides| == 0 || u.Username !in overrides then u
    else
      var o := overrides[u.Username];
      u.(Username := OverrideField(u.Username, o.Username, false),
         FirstName := OverrideField(u.FirstName, o.FirstName, true),
         LastName := OverrideField(u.LastName, o.LastName, true),
         Position := OverrideField(u.Position, o.Position, true),
         Email := OverrideField(u.Email, o.Email, false),
         Password := OverrideField(u.Password, o.Password, false))
  }

  /** ApplyChannelOverrides: the override keyed by the channel's Name, if any;
      "-" clears every one of the five fields. */
  function ChannelWithOverrides(overrides: map<string, ChannelData>, c: ChannelData): (r: ChannelData)
    ensures c.Name !in overrides ==> r == c
    ensures c.Name in overrides ==>
      var o := overrides[c.Name];
      && OverriddenTo(c.Name, o.Name, true, r.Name)
      && OverriddenTo(c.DisplayName, o.DisplayName, true, r.DisplayName)
      && OverriddenTo(c.Purpose, o.Purpose, true, r.Purpose)
      && OverriddenTo(c.Header, o.Header, true, r.Header)
      && OverriddenTo(c.Topic, o.Topic, true, r.Topic)
    ensures r.(Name := c.Name, DisplayName := c.DisplayName, Purpose := c.Purpose,
               Header := c.Header, Topic := c.Topic) == c
  {
    if |overrides| == 0 || c.Name !in overrides then c
    else
      var o := overrides[c.Name];
      c.(Name := OverrideField(c.Name, o.Name, true),
         DisplayName := OverrideField(c.DisplayName, o.DisplayName, true),
         Purpose := OverrideField(c.Purpose, o.Purpose, true),
         Header := OverrideField(c.Header, o.Header, true),
         Topic := OverrideField(c.Topic, o.Topic, true))
  }

  /** An override entry whose fields are all empty changes nothing. */
  lemma EmptyUserOverride(overrides: map<string, UserData>, u: UserData)
    requires u.Username in overrides
    requires var o := overrides[u.Username];
      o.Username == o.FirstName == o.LastName == o.Position == o.Email == o.Password == ""
    ensures UserWithOverrides(overrides, u) == u
  {
  }

  /** Overriding a user's fields with a "-" clears the name fields and the
      position, but copies it literally into the username, email and
      password. */
  lemma DashUserOverride(overrides: map<string, UserData>, u: UserData)
    requires u.Username in overrides
    requires var o := overrides[u.Username];
      o.Username == o.FirstName == o.LastName == o.Position == o.Email == o.Password == "-"
    ensures var r := UserWithOverrides(overrides, u);
      && r.FirstName == r.LastName == r.Position == ""
      && r.Username == r.Email == r.Password == "-"
  {
  }

  // ---------------------------------------------------------------------------
  // Users
  // ---------------------------------------------------------------------------

  /** IntermediateUser.Sanitise: a missing email becomes a placeholder. */
  function SanitisedUser(u: UserData): (r: UserData)
    ensures r.Email != ""
    ensures u.Email != "" ==> r == u
    ensures u.Email == "" ==> r == u.(Email := u.Username + "@example.com")
  {
    if u.Email == "" then u.(Email := u.Username + "@example.com") else u
  }

  /** Sanitising twice is sanitising once. */
  lemma SanitiseUserIdempotent(u: UserData)
    ensures SanitisedUser(SanitisedUser(u)) == SanitisedUser(u)
  {
  }

  /** The key of a Slack user in UsersById: a bot goes by its bot id. */
  function UserKey(user: SlackUser): string {
    if user.IsBot then user.Profile.BotID else user.Id
  }

  /** The intermediate user built from a Slack user, before overrides. */
  function FromSlack(user: SlackUser, password: string): UserData {
    UserData(UserKey(user), user.Username, user.Profile.FirstName, user.Profile.LastName,
             user.Profile.Title, user.Profile.Email, password, [])
  }

  /** One user of TransformUsers: built, overridden, sanitised. */
  function TransformedUser(overrides: map<string, UserData>, user: SlackUser, password: string): (r: UserData)
    ensures r.Id == UserKey(user) && r.Email != "" && r.Memberships == []
  {
    SanitisedUser(UserWithOverrides(overrides, FromSlack(user, password)))
  }

  /** The identifier the generator newId issues n-th. */
  function IdAt(newId: nat -> string, n: nat): string {
    newId(n)
  }

  /** TransformUsers over users, where user i gets password newId(start + i);
      a later user with the same key replaces an earlier one. */
  function TransformedUsers(overrides: map<string, UserData>, users: seq<SlackUser>,
                            newId: nat -> string, start: nat): map<string, UserData>
  {
    if users == [] then map[]
    else
      var n := |users| - 1;
      TransformedUsers(overrides, users[..n], newId, start)[UserKey(users[n]) := TransformedUser(overrides, users[n], IdAt(newId, start + n))]
  }

  /** The keys of the user table are exactly the users' keys. */
  lemma {:induction false} TransformedUsersKeys(overrides: map<string, UserData>, users: seq<SlackUser>,
                                                newId: nat -> string, start: nat)
    ensures TransformedUsers(overrides, users, newId, start).Keys == UserKeys(users)
  {
    if users != [] {
      var n := |users| - 1;
      var p := TransformedUsers(overrides, users[..n], newId, start);
      TransformedUsersKeys(overrides, users[..n], newId, start);
      assert TransformedUsers(overrides, users, newId, start).Keys == p.Keys + {UserKey(users[n])};
      UserKeysSnoc(users);
    }
  }

  /** The keys of a list of Slack users. */
  function UserKeys(users: seq<SlackUser>): set<string> {
    set i | 0 <= i < |users| :: UserKey(users[i])
  }

  lemma UserKeysSnoc(users: seq<SlackUser>)
    requires users != []
    ensures UserKeys(users) == UserKeys(users[..|users| - 1]) + {UserKey(users[|users| - 1])}
  {
    var n := |users| - 1;
    forall k | k in UserKeys(users) ensures k in UserKeys(users[..n]) + {UserKey(users[n])} {
      var i :| 0 <= i < |users| && UserKey(users[i]) == k;
      if i < n {
        assert UserKey(users[..n][i]) == k;
      }
    }
    forall k | k in UserKeys(users[..n]) ensures k in UserKeys(users) {
      var i :| 0 <= i < n && UserKey(users[..n][i]) == k;
      assert UserKey(users[i]) == k;
    }
  }

  /** Each stored user is filed under its own id and has an email. */
  lemma {:induction false} TransformedUsersWellFiled(overrides: map<string, UserData>, users: seq<SlackUser>,
                                                     newId: nat -> string, start: nat)
    ensures forall k :: k in TransformedUsers(overrides, users, newId, start) ==>
      TransformedUsers(overrides, users, newId, start)[k].Id == k &&
      TransformedUsers(overrides, users, newId, start)[k].Email != ""
  {
    if users != [] {
      var n := |users| - 1;
      TransformedUsersWellFiled(overrides, users[..n], newId, start);
      var p := TransformedUsers(overrides, users[..n], newId, start);
      var u := TransformedUser(overrides, users[n], IdAt(newId, start + n));
      assert TransformedUsers(overrides, users, newId, start) == p[UserKey(users[n]) := u];
      var m := p[UserKey(users[n]) := u];
      forall k | k in m ensures m[k].Id == k && m[k].Email != "" {
        if k != UserKey(users[n]) {
          assert k in p && m[k] == p[k];
          assert p[k].Id == k;
        } else {
          assert m[k] == u;
          assert u.Id == k;
        }
      }
    }
  }

  /** The user stored under a key comes from the last Slack user with that key. */
  lemma {:induction false} TransformedUsersLast(overrides: map<string, UserData>, users: seq<SlackUser>,
                                                newId: nat -> string, start: nat, i: nat)
    requires i < |users|
    requires forall j :: i < j < |users| ==> UserKey(users[j]) != UserKey(users[i])
    ensures UserKey(users[i]) in TransformedUsers(overrides, users, newId, start)
    ensures TransformedUsers(overrides, users, newId, start)[UserKey(users[i])]
         == TransformedUser(overrides, users[i], IdAt(newId, start + i))
  {
    var n := |users| - 1;
    if i < n {
      assert users[..n][i] == users[i];
      assert UserKey(users[n]) != UserKey(users[i]);
      TransformedUsersLast(overrides, users[..n], newId, start, i);
    }
  }

  // ---------------------------------------------------------------------------
  // Channel members
  // ---------------------------------------------------------------------------

  /** filterValidMembers: the members that are known users, in order. */
  function ValidMembers(members: seq<string>, users: set<string>): (r: seq<string>)
    ensures |r| <= |members|
    ensures forall x :: x in r ==> x in users
  {
    if members == [] then []
    else
      var n := |members| - 1;
      var p := ValidMembers(members[..n], users);
      if members[n] in users then p + [members[n]] else p
  }

  /** A member is kept iff it is a known user, as often as it occurs. */
  lemma {:induction false} ValidMembersCount(members: seq<string>, users: set<string>, x: string)
    ensures multiset(ValidMembers(members, users))[x] == if x in users then multiset(members)[x] else 0
  {
    if members != [] {
      var n := |members| - 1;
      ValidMembersCount(members[..n], users, x);
      assert members == members[..n] + [members[n]];
    }
  }

  /** Filtering distributes over concatenation, which keeps the order. */
  lemma {:induction false} ValidMembersAppend(a: seq<string>, b: seq<string>, users: set<string>)
    ensures ValidMembers(a + b, users) == ValidMembers(a, users) + ValidMembers(b, users)
    decreases |b|
  {
    if b != [] {
      var n := |b| - 1;
      assert (a + b)[..|a| + n] == a + b[..n];
      ValidMembersAppend(a, b[..n], users);
    } else {
      assert a + b == a;
    }
  }

  /** Members that are all known users are kept as they are. */
  lemma {:induction false} ValidMembersAllKnown(members: seq<string>, users: set<string>)
    requires forall i :: 0 <= i < |members| ==> members[i] in users
    ensures ValidMembers(members, users) == members
  {
    if members != [] {
      var n := |members| - 1;
      ValidMembersAllKnown(members[..n], users);
      assert members == members[..n] + [members[n]];
    }
  }

  /** The usernames of the members that are known users, in order. */
  function KnownUsernames(members: seq<string>, usernames: map<string, string>): (r: seq<string>)
    ensures |r| <= |members|
  {
    if members == [] then []
    else
      var n := |members| - 1;
      var p := KnownUsernames(members[..n], usernames);
      if members[n] in usernames then p + [usernames[members[n]]] else p
  }

  /** Usernames are looked up for exactly the known members. */
  lemma {:induction false} KnownUsernamesLength(members: seq<string>, usernames: map<string, string>)
    ensures |KnownUsernames(members, usernames)| == |ValidMembers(members, usernames.Keys)|
    ensures forall i :: 0 <= i < |KnownUsernames(members, usernames)| ==>
      KnownUsernames(members, usernames)[i] == usernames[ValidMembers(members, usernames.Keys)[i]]
  {
    if members != [] {
      KnownUsernamesLength(members[..|members| - 1], usernames);
    }
  }

  // ---------------------------------------------------------------------------
  // Channel sanitisation
  // ---------------------------------------------------------------------------

  /** truncateRunes(s, n): the first n runes of s. */
  function TruncateRunes(s: string, n: nat): (r: string)
    ensures r <= s && |r| <= n
    ensures |s| <= n ==> r == s
  {
    if |s| > n then s[..n] else s
  }

  /** A name of one byte gets the prefix "slack-channel-". */
  function PadShort(name: string): string {
    if Utf8Len(name) == 1 then "slack-channel-" + name else name
  }

  /** The handle of a channel: trimmed of '_' and '-', cut to the maximum
      byte length, padded when a single byte, and replaced by the lower-cased
      id when it has invalid characters. */
  function SanitisedName(limits: Limits, validName: NameCheck, name: string, id: string): (r: string)
    ensures r == Lower(id) || validName(r)
  {
    var t := Trim(name);
    var b := if Utf8Len(t) > limits.ChannelNameMaxLength then BytePrefix(t, limits.ChannelNameMaxLength) else t;
    var p := PadShort(b);
    if validName(p) then p else Lower(id)
  }

  /** The display name: trimmed, cut to the maximum rune count, padded. */
  function SanitisedDisplayName(limits: Limits, name: string): (r: string)
  {
    PadShort(TruncateRunes(Trim(name), limits.ChannelDisplayNameMaxRunes))
  }

  /** IntermediateChannel.Sanitise. */
  function SanitisedChannel(limits: Limits, validName: NameCheck, c: ChannelData): ChannelData
  {
    if c.Type == Direct then c
    else
      c.(Name := SanitisedName(limits, validName, c.Name, c.Id),
         DisplayName := SanitisedDisplayName(limits, c.DisplayName),
         Purpose := TruncateRunes(c.Purpose, limits.ChannelPurposeMaxRunes),
         Header := TruncateRunes(c.Header, limits.ChannelHeaderMaxRunes))
  }

  /** Sanitising leaves a direct channel alone; any other channel gets a
      purpose and a header that are prefixes within their limits, kept whole
      when they fit, and a handle that is valid or the lower-cased id; no
      other field changes. */
  lemma SanitisedChannelBounds(limits: Limits, validName: NameCheck, c: ChannelData)
    ensures var r := SanitisedChannel(limits, validName, c);
      && (c.Type == Direct ==> r == c)
      && (c.Type != Direct ==>
        && r.Purpose <= c.Purpose && |r.Purpose| <= limits.ChannelPurposeMaxRunes
        && (|c.Purpose| <= limits.ChannelPurposeMaxRunes ==> r.Purpose == c.Purpose)
        && r.Header <= c.Header && |r.Header| <= limits.ChannelHeaderMaxRunes
        && (|c.Header| <= limits.ChannelHeaderMaxRunes ==> r.Header == c.Header)
        && (r.Name == Lower(c.Id) || validName(r.Name)))
      && r.(Name := c.Name, DisplayName := c.DisplayName, Purpose := c.Purpose, Header := c.Header) == c
  {
  }

  /** A valid handle within the byte limit is only trimmed. */
  lemma SanitisedNameTrimmed(limits: Limits, validName: NameCheck, name: string, id: string)
    requires Utf8Len(Trim(name)) <= limits.ChannelNameMaxLength && Utf8Len(Trim(name)) != 1
    requires validName(Trim(name))
    ensures SanitisedName(limits, validName, name, id) == Trim(name)
  {
  }

  /** A handle that trims to one ASCII character gets the prefix. */
  lemma SanitisedNameShort(limits: Limits, validName: NameCheck, name: string, id: string, ch: char)
    requires Trim(name) == [ch] && ch as int < 0x80 && limits.ChannelNameMaxLength >= 1
    requires validName("slack-channel-" + [ch])
    ensures SanitisedName(limits, validName, name, id) == "slack-channel-" + [ch]
  {
    Utf8LenOne([ch]);
  }

  /** With a handle of invalid characters, the channel falls back to its
      lower-cased id. */
  lemma SanitisedNameFallback(limits: Limits, validName: NameCheck, name: string, id: string)
    requires forall s :: !validName(s)
    ensures SanitisedName(limits, validName, name, id) == Lower(id)
  {
  }

  // ---------------------------------------------------------------------------
  // TransformChannels
  // ---------------------------------------------------------------------------

  /** getOriginalName: the Slack name, or the id of an unnamed channel. */
  function OriginalName(c: SlackChannel): (r: string)
    ensures c.Name != "" ==> r == c.Name
    ensures r == "" <==> c.Name == "" && c.Id == ""
  {
    if c.Name == "" then c.Id else c.Name
  }

  predicate IsDirectOrGroup(t: ChannelType) {
    t == Direct || t == Group
  }

  /** A group channel over the group size limit becomes a private channel
      named after its purpose. */
  function Demoted(limits: Limits, c: SlackChannel, valid: seq<string>): SlackChannel {
    if c.Type == Group && |valid| > limits.ChannelGroupMaxUsers then c.(Name := c.Purpose.Value, Type := Private)
    else c
  }

  /** The team-internal handle of a direct or group channel: its lower-cased
      id, its kind and the sorted usernames of its members, joined by '-'. */
  function InternalName(c: SlackChannel, names: seq<string>): string {
    Lower(c.Id) + "-" + (if c.Type == Direct then "direct-" else "group-") + Join(SortStrings(names), "-")
  }

  /** The handle TransformChannels gives a channel before overrides and
      sanitisation. */
  function TransformedName(validName: NameCheck, c: SlackChannel, names: seq<string>, teamInternalOnly: bool): string {
    var n := if teamInternalOnly && IsDirectOrGroup(c.Type) then InternalName(c, names) else Trim(c.Name);
    var p := PadShort(n);
    if validName(p) then p else Lower(c.Id)
  }

  /** The channel record TransformChannels builds for a kept channel with
      known members valid, before overrides and sanitisation. */
  function NewChannelData(limits: Limits, validName: NameCheck, usernames: map<string, string>,
                          teamInternalOnly: bool, c: SlackChannel, valid: seq<string>): ChannelData
  {
    var ch := Demoted(limits, c, valid);
    var name := TransformedName(validName, ch, KnownUsernames(valid, usernames), teamInternalOnly);
    var t := if teamInternalOnly && IsDirectOrGroup(ch.Type) then Private else ch.Type;
    ChannelData("", OriginalName(ch), name, name, valid, [], ch.Purpose.Value, ch.Topic.Value, "", t)
  }

  /** Overrides reach open and private channels only. */
  function OpenOrPrivateOverrides(overrides: map<string, ChannelData>, c: ChannelData): ChannelData {
    if c.Type == Open || c.Type == Private then ChannelWithOverrides(overrides, c) else c
  }

  /** One channel of TransformChannels; None when it is dropped. usernames
      maps each known user id to its username. */
  function TransformedChannel(limits: Limits, validName: NameCheck, overrides: map<string, ChannelData>,
                              usernames: map<string, string>, teamInternalOnly: bool,
                              c: SlackChannel): (r: Option<ChannelData>)
  {
    var valid := ValidMembers(c.Members, usernames.Keys);
    if IsDirectOrGroup(c.Type) && |valid| <= 1 then None
    else
      var base := NewChannelData(limits, validName, usernames, teamInternalOnly, c, valid);
      Some(SanitisedChannel(limits, validName, OpenOrPrivateOverrides(overrides, base)))
  }

  /** TransformChannels: the channels not dropped, in order. */
  function TransformedChannels(limits: Limits, validName: NameCheck, overrides: map<string, ChannelData>,
                               usernames: map<string, string>, teamInternalOnly: bool,
                               cs: seq<SlackChannel>): seq<ChannelData>
  {
    if cs == [] then []
    else
      var n := |cs| - 1;
      var p := TransformedChannels(limits, validName, overrides, usernames, teamInternalOnly, cs[..n]);
      match TransformedChannel(limits, validName, overrides, usernames, teamInternalOnly, cs[n])
      case None => p
      case Some(ch) => p + [ch]
  }

  /** A direct or group channel is dropped iff it has at most one known
      member; no other channel is dropped. */
  lemma ChannelDropped(limits: Limits, validName: NameCheck, overrides: map<string, ChannelData>,
                       usernames: map<string, string>, teamInternalOnly: bool, c: SlackChannel)
    ensures TransformedChannel(limits, validName, overrides, usernames, teamInternalOnly, c).None?
        <==> IsDirectOrGroup(c.Type) && |ValidMembers(c.Members, usernames.Keys)| <= 1
  {
  }

  /** A kept channel's members are its known members, in order. */
  lemma ChannelMembers(limits: Limits, validName: NameCheck, overrides: map<string, ChannelData>,
                       usernames: map<string, string>, teamInternalOnly: bool, c: SlackChannel)
    requires TransformedChannel(limits, validName, overrides, usernames, teamInternalOnly, c).Some?
    ensures TransformedChannel(limits, validName, overrides, usernames, teamInternalOnly, c).value.Members
         == ValidMembers(c.Members, usernames.Keys)
  {
  }

  /** A group channel over the size limit becomes private, named after its
      purpose: when the trimmed purpose is a valid handle within the byte
      limit, not a single byte and not overridden, it is the handle. */
  lemma BigGroupDemoted(limits: Limits, validName: NameCheck, overrides: map<string, ChannelData>,
                        usernames: map<string, string>, teamInternalOnly: bool, c: SlackChannel)
    requires c.Type == Group && |ValidMembers(c.Members, usernames.Keys)| > limits.ChannelGroupMaxUsers
    requires limits.ChannelGroupMaxUsers >= 1
    ensures var r := TransformedChannel(limits, validName, overrides, usernames, teamInternalOnly, c);
      && r.Some? && r.value.Type == Private && r.value.OriginalName == OriginalName(c.(Name := c.Purpose.Value))
      && (var t := Trim(c.Purpose.Value);
          validName(t) && Utf8Len(t) != 1 && Utf8Len(t) <= limits.ChannelNameMaxLength && t !in overrides ==>
          r.value.Name == t)
  {
    var t := Trim(c.Purpose.Value);
    if validName(t) && Utf8Len(t) != 1 && Utf8Len(t) <= limits.ChannelNameMaxLength && t !in overrides {
      var valid := ValidMembers(c.Members, usernames.Keys);
      var base := NewChannelData(limits, validName, usernames, teamInternalOnly, c, valid);
      assert base.Name == t;
      assert OpenOrPrivateOverrides(overrides, base) == base;
      TrimIdempotent(c.Purpose.Value);
      SanitisedNameTrimmed(limits, validName, t, base.Id);
    }
  }

  /** Team-internal direct and group channels become private. */
  lemma InternalOnlyPrivate(limits: Limits, validName: NameCheck, overrides: map<string, ChannelData>,
                            usernames: map<string, string>, c: SlackChannel)
    requires IsDirectOrGroup(c.Type)
    requires TransformedChannel(limits, validName, overrides, usernames, true, c).Some?
    ensures TransformedChannel(limits, validName, overrides, usernames, true, c).value.Type == Private
  {
  }

  /** Open and private channels keep their type. */
  lemma ChannelTypeKept(limits: Limits, validName: NameCheck, overrides: map<string, ChannelData>,
                        usernames: map<string, string>, teamInternalOnly: bool, c: SlackChannel)
    requires c.Type == Open || c.Type == Private
    ensures var r := TransformedChannel(limits, validName, overrides, usernames, teamInternalOnly, c);
      r.Some? && r.value.Type == c.Type
  {
  }

  /** Overrides do not reach direct and group channels that stay what they
      are. */
  lemma OverridesSkipDirect(limits: Limits, validName: NameCheck, o1: map<string, ChannelData>,
                            o2: map<string, ChannelData>, usernames: map<string, string>, c: SlackChannel)
    requires c.Type == Direct || (c.Type == Group && |ValidMembers(c.Members, usernames.Keys)| <= limits.ChannelGroupMaxUsers)
    ensures TransformedChannel(limits, validName, o1, usernames, false, c)
         == TransformedChannel(limits, validName, o2, usernames, false, c)
  {
  }

  /** Every member of every output channel is a known user. */
  lemma {:induction false} TransformedChannelsMembers(limits: Limits, validName: NameCheck,
                                                      overrides: map<string, ChannelData>,
                                                      usernames: map<string, string>, teamInternalOnly: bool,
                                                      cs: seq<SlackChannel>)
    ensures var out := TransformedChannels(limits, validName, overrides, usernames, teamInternalOnly, cs);
      |out| <= |cs| &&
      forall i, x :: 0 <= i < |out| && x in out[i].Members ==> x in usernames
  {
    if cs != [] {
      var n := |cs| - 1;
      TransformedChannelsMembers(limits, validName, overrides, usernames, teamInternalOnly, cs[..n]);
      var o := TransformedChannel(limits, validName, overrides, usernames, teamInternalOnly, cs[n]);
      TransformedChannelsSnoc(limits, validName, overrides, usernames, teamInternalOnly, cs);
      if o.Some? {
        ChannelMembers(limits, validName, overrides, usernames, teamInternalOnly, cs[n]);
      }
    }
  }

  /** TransformChannels one channel at a time. */
  lemma TransformedChannelsSnoc(limits: Limits, validName: NameCheck, overrides: map<string, ChannelData>,
                                usernames: map<string, string>, teamInternalOnly: bool, cs: seq<SlackChannel>)
    requires cs != []
    ensures var n := |cs| - 1;
      var p := TransformedChannels(limits, validName, overrides, usernames, teamInternalOnly, cs[..n]);
      var o := TransformedChannel(limits, validName, overrides, usernames, teamInternalOnly, cs[n]);
      TransformedChannels(limits, validName, overrides, usernames, teamInternalOnly, cs)
        == if o.Some? then p + [o.value] else p
  {
  }

  // ---------------------------------------------------------------------------
  // Memberships
  // ---------------------------------------------------------------------------

  /** The names of the channels that list userId as a member, in order. */
  function ChannelNamesWith(userId: string, cs: seq<ChannelData>): (r: seq<string>)
    ensures |r| <= |cs|
  {
    if cs == [] then []
    else
      var n := |cs| - 1;
      var p := ChannelNamesWith(userId, cs[..n]);
      if userId in cs[n].Members then p + [cs[n].Name] else p
  }

  /** PopulateUserMemberships for one user: its public then its private
      channels. */
  function UserMemberships(userId: string, public: seq<ChannelData>, private: seq<ChannelData>): seq<string> {
    ChannelNamesWith(userId, public) + ChannelNamesWith(userId, private)
  }

  /** A name is listed iff some channel with that name has the user as a
      member. */
  lemma {:induction false} ChannelNamesWithMember(userId: string, cs: seq<ChannelData>, i: nat)
    requires i < |cs| && userId in cs[i].Members
    ensures cs[i].Name in ChannelNamesWith(userId, cs)
  {
    var n := |cs| - 1;
    if i < n {
      assert cs[..n][i] == cs[i];
      ChannelNamesWithMember(userId, cs[..n], i);
    }
  }

  lemma {:induction false} ChannelNamesWithSource(userId: string, cs: seq<ChannelData>, x: string)
    returns (i: nat)
    requires x in ChannelNamesWith(userId, cs)
    ensures i < |cs| && userId in cs[i].Members && cs[i].Name == x
  {
    var n := |cs| - 1;
    if x in ChannelNamesWith(userId, cs[..n]) {
      i := ChannelNamesWithSource(userId, cs[..n], x);
      assert cs[..n][i] == cs[i];
    } else {
      i := n;
    }
  }

  // ---------------------------------------------------------------------------
  // Reactions
  // ---------------------------------------------------------------------------

  /** CreateIntermediateUser: the placeholder for a user missing from the
      export, with overrides applied. */
  function PlaceholderUser(overrides: map<string, UserData>, id: string, password: string): (r: UserData)
    ensures r.Id == id
  {
    UserWithOverrides(overrides, UserData(id, Lower(id), "Deleted", "User", "", id + "@local", password, []))
  }

  /** u is the placeholder for id, whatever password it was given. */
  predicate IsPlaceholder(overrides: map<string, UserData>, id: string, u: UserData) {
    u == PlaceholderUser(overrides, id, u.Password)
  }

  /** Every placeholder is recognised, and without an override it is named
      after the lower-cased id and has the address id@local. */
  lemma PlaceholderRecognised(overrides: map<string, UserData>, id: string, password: string)
    ensures IsPlaceholder(overrides, id, PlaceholderUser(overrides, id, password))
    ensures Lower(id) !in overrides ==>
      var u := PlaceholderUser(overrides, id, password);
      u.Username == Lower(id) && u.Email == id + "@local" && u.FirstName == "Deleted" && u.LastName == "User"
  {
  }

  /** The placeholder's username does not depend on its password. */
  lemma PlaceholderUsername(overrides: map<string, UserData>, id: string, p: string, q: string)
    ensures PlaceholderUser(overrides, id, p).Username == PlaceholderUser(overrides, id, q).Username
  {
  }

  /** The username a reaction by userId is recorded under: the known user's,
      or the placeholder's. */
  function ReactingName(overrides: map<string, UserData>, usernames: map<string, string>, userId: string): string {
    if userId in usernames then usernames[userId] else PlaceholderUser(overrides, userId, "").Username
  }

  /** The import entries for the users of one reaction, in order. */
  function UserReactions(overrides: map<string, UserData>, usernames: map<string, string>,
                         users: seq<string>, createAt: int, emoji: string): (r: seq<ReactionImportData>)
    ensures |r| == |users|
  {
    if users == [] then []
    else
      var n := |users| - 1;
      UserReactions(overrides, usernames, users[..n], createAt, emoji)
        + [ReactionImportData(ReactingName(overrides, usernames, users[n]), createAt + 1, emoji)]
  }

  /** The entries for a prefix of the users, extended by one user. */
  lemma UserReactionsSnoc(overrides: map<string, UserData>, usernames: map<string, string>,
                          users: seq<string>, i: nat, createAt: int, emoji: string)
    requires i < |users|
    ensures UserReactions(overrides, usernames, users[..i + 1], createAt, emoji)
         == UserReactions(overrides, usernames, users[..i], createAt, emoji)
            + [ReactionImportData(ReactingName(overrides, usernames, users[i]), createAt + 1, emoji)]
  {
    assert users[..i + 1][..i] == users[..i];
  }

  /** SlackConvertReactions on a present list: one entry per reacting user,
      reaction by reaction. */
  function ExpandReactions(overrides: map<string, UserData>, usernames: map<string, string>,
                           reactions: seq<SlackReaction>, createAt: int): seq<ReactionImportData>
  {
    if reactions == [] then []
    else
      var n := |reactions| - 1;
      ExpandReactions(overrides, usernames, reactions[..n], createAt)
        + UserReactions(overrides, usernames, reactions[n].Users, createAt, SlackConvertEmojiName(reactions[n].Name))
  }

  /** A prefix of the reactions, extended by one reaction. */
  lemma ReactionsSnoc(overrides: map<string, UserData>, usernames: map<string, string>,
                      reactions: seq<SlackReaction>, i: nat, createAt: int)
    requires i < |reactions|
    ensures ExpandReactions(overrides, usernames, reactions[..i + 1], createAt)
         == ExpandReactions(overrides, usernames, reactions[..i], createAt)
            + UserReactions(overrides, usernames, reactions[i].Users, createAt, SlackConvertEmojiName(reactions[i].Name))
    ensures forall k :: k in ReactingIds(reactions[..i + 1]) <==> k in ReactingIds(reactions[..i]) || k in reactions[i].Users
  {
    assert reactions[..i + 1][..i] == reactions[..i];
  }

  /** The number of (reaction, user) pairs. */
  function TotalUsers(reactions: seq<SlackReaction>): nat {
    if reactions == [] then 0 else TotalUsers(reactions[..|reactions| - 1]) + |reactions[|reactions| - 1].Users|
  }

  /** The user ids that react. */
  function ReactingIds(reactions: seq<SlackReaction>): set<string> {
    if reactions == [] then {}
    else ReactingIds(reactions[..|reactions| - 1]) + Elements(reactions[|reactions| - 1].Users)
  }

  /** The set of the strings of a list. */
  function Elements(s: seq<string>): (r: set<string>)
    ensures forall x :: x in r <==> x in s
  {
    set x | x in s
  }

  lemma {:induction false} UserReactionsShape(overrides: map<string, UserData>, usernames: map<string, string>,
                                              users: seq<string>, createAt: int, emoji: string)
    ensures forall k :: 0 <= k < |users| ==>
      UserReactions(overrides, usernames, users, createAt, emoji)[k]
        == ReactionImportData(ReactingName(overrides, usernames, users[k]), createAt + 1, emoji)
  {
    if users != [] {
      UserReactionsShape(overrides, usernames, users[..|users| - 1], createAt, emoji);
    }
  }

  /** As many entries as (reaction, user) pairs, each created one millisecond
      after the post, each with an emoji name free of ':'. */
  lemma {:induction false} ExpandReactionsShape(overrides: map<string, UserData>, usernames: map<string, string>,
                                                reactions: seq<SlackReaction>, createAt: int)
    ensures var r := ExpandReactions(overrides, usernames, reactions, createAt);
      && |r| == TotalUsers(reactions)
      && forall k :: 0 <= k < |r| ==> r[k].CreateAt == createAt + 1 && ':' !in r[k].EmojiName
  {
    if reactions != [] {
      var n := |reactions| - 1;
      ExpandReactionsShape(overrides, usernames, reactions[..n], createAt);
      UserReactionsShape(overrides, usernames, reactions[n].Users, createAt, SlackConvertEmojiName(reactions[n].Name));
    }
  }
}
