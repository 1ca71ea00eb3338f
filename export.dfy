/** The parsed Slack export: the records the merger reconciles and the
    transform reads. Only the fields the core reads or compares are kept;
    the Go types carry more, which reflect.DeepEqual would also compare. */
module Export {
  import opened Wrappers
  import opened ZipExtra

  /** model.ChannelType: "O" open, "P" private, "G" group message, "D" direct message. */
  datatype ChannelType = Open | Private | Group | Direct

  /** SlackChannelSub, the purpose or topic of a channel. */
  datatype ChannelSub = ChannelSub(Value: string, Creator: string, LastSet: int)

  datatype SlackChannel = SlackChannel(
    Id: string,
    Name: string,
    Creator: string,
    Members: seq<string>,
    Purpose: ChannelSub,
    Topic: ChannelSub,
    Type: ChannelType)

  datatype SlackProfile = SlackProfile(
    BotID: string,
    FirstName: string,
    LastName: string,
    Title: string,
    Email: string)

  datatype SlackUser = SlackUser(
    Id: string,
    Username: string,
    IsBot: bool,
    Profile: SlackProfile)

  datatype SlackComment = SlackComment(User: string, Comment: string)

  datatype SlackReaction = SlackReaction(Name: string, Count: int, Users: seq<string>)

  datatype SlackPost = SlackPost(
    User: string,
    BotId: string,
    Text: string,
    TimeStamp: string,
    ThreadTS: string,
    Type: string,
    SubType: string,
    Comment: Option<SlackComment>,
    Reactions: Option<seq<SlackReaction>>,
    Original: string)

  /** The central-directory descriptor of an uploaded file (zip.File). */
  datatype ZipFile = ZipFile(
    Name: string,
    Comment: string,
    NonUTF8: bool,
    CreatorVersion: nat,
    ReaderVersion: nat,
    Flags: nat,
    CRC32: nat,
    UncompressedSize64: nat,
    Extra: seq<byte>,
    ExternalAttrs: nat)

  datatype SlackExport = SlackExport(
    TeamName: string,
    Channels: seq<SlackChannel>,
    PublicChannels: seq<SlackChannel>,
    PrivateChannels: seq<SlackChannel>,
    GroupChannels: seq<SlackChannel>,
    DirectChannels: seq<SlackChannel>,
    Users: seq<SlackUser>,
    Posts: map<string, seq<SlackPost>>,
    Uploads: map<string, ZipFile>)
}
