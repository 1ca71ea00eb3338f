/** Reaction emoji names. Slack writes a skin tone as a "::skin-tone-N"
    suffix; Mattermost spells it as a "_..._skin_tone" suffix, and has no
    compound emoji, so any remaining ':' is turned into '_'. */
module Emoji {
  import opened Wrappers
  import opened Text

  /** One row of the skin-tone table: the Slack suffix and its replacement. */
  datatype SkinTone = SkinTone(slack: string, mm: string)

  const SkinTones: seq<SkinTone> := [
    SkinTone("::skin-tone-2", "_light_skin_tone"),
    SkinTone("::skin-tone-3", "_medium_light_skin_tone"),
    SkinTone("::skin-tone-4", "_medium_skin_tone"),
    SkinTone("::skin-tone-5", "_medium_dark_skin_tone"),
    SkinTone("::skin-tone-6", "_dark_skin_tone")
  ]

  /** The Mattermost suffix for Slack skin tone n, for n in 2..6. */
  function ToneSuffix(n: nat): string
    requires 2 <= n <= 6
  {
    SkinTones[n - 2].mm
  }

  /** The first row of the table, from row i on, whose Slack suffix ends s. */
  function FirstTone(s: string, i: nat): (r: Option<nat>)
    requires i <= |SkinTones|
    ensures r.Some? ==> i <= r.value < |SkinTones| && HasSuffix(s, SkinTones[r.value].slack)
    ensures r.Some? ==> forall j :: i <= j < r.value ==> !HasSuffix(s, SkinTones[j].slack)
    ensures r.None? ==> forall j :: i <= j < |SkinTones| ==> !HasSuffix(s, SkinTones[j].slack)
    decreases |SkinTones| - i
  {
    if i == |SkinTones| then None
    else if HasSuffix(s, SkinTones[i].slack) then Some(i)
    else FirstTone(s, i + 1)
  }

  /** strings.Replace(s, ":", "_", -1). */
  function ReplaceColons(s: string): (r: string)
    ensures |r| == |s| && ':' !in r
    ensures forall k :: 0 <= k < |s| ==> r[k] == if s[k] == ':' then '_' else s[k]
  {
    seq(|s|, k requires 0 <= k < |s| => if s[k] == ':' then '_' else s[k])
  }

  /** SlackConvertEmojiName: strip a skin-tone suffix, convert what is left
      and append the Mattermost tone; without a tone suffix, replace every
      ':' by '_'. */
  function SlackConvertEmojiName(name: string): (r: string)
    ensures ':' !in r
    ensures ':' !in name ==> r == name
    decreases |name|
  {
    match FirstTone(name, 0)
    case Some(i) =>
      ToneHasColon(name, i);
      SlackConvertEmojiName(TrimSuffix(name, SkinTones[i].slack)) + SkinTones[i].mm
    case None =>
      if ':' in name then ReplaceColons(name) else name
  }

  /** Every Slack suffix of the table holds a ':', no Mattermost suffix does. */
  lemma ToneHasColon(name: string, i: nat)
    requires i < |SkinTones| && HasSuffix(name, SkinTones[i].slack)
    ensures ':' in name && ':' !in SkinTones[i].mm
  {
    var tone := SkinTones[i];
    assert tone.slack[0] == ':';
    assert name[|name| - |tone.slack|] == tone.slack[0];
    MmHasNoColon(i);
  }

  lemma MmHasNoColon(i: nat)
    requires i < |SkinTones|
    ensures ':' !in SkinTones[i].mm
  {
    var mm := SkinTones[i].mm;
    forall k | 0 <= k < |mm| ensures mm[k] != ':' {
      if i == 0 {
      } else if i == 1 {
      } else if i == 2 {
      } else if i == 3 {
      } else {
        assert i == 4;
      }
    }
  }

  /** The Slack spelling of skin tone n. */
  function SlackTone(n: nat): string
    requires 2 <= n <= 6
  {
    SkinTones[n - 2].slack
  }

  /** Only row n - 2 of the table ends base + "::skin-tone-n": the suffixes
      differ in their last character. */
  lemma OnlyTone(base: string, n: nat)
    requires 2 <= n <= 6
    ensures FirstTone(base + SlackTone(n), 0) == Some(n - 2)
  {
    var s := base + SlackTone(n);
    forall j | 0 <= j < |SkinTones| && j != n - 2
      ensures !HasSuffix(s, SkinTones[j].slack)
    {
      assert s[|s| - 1] == SlackTone(n)[12];
    }
    assert HasSuffix(s, SkinTones[n - 2].slack) by {
      assert s[|s| - |SlackTone(n)|..] == SlackTone(n);
    }
    FirstToneAt(s, 0, n - 2);
  }

  lemma {:induction false} FirstToneAt(s: string, i: nat, k: nat)
    requires i <= k < |SkinTones| && HasSuffix(s, SkinTones[k].slack)
    requires forall j :: i <= j < |SkinTones| && j != k ==> !HasSuffix(s, SkinTones[j].slack)
    ensures FirstTone(s, i) == Some(k)
    decreases k - i
  {
    if i < k {
      FirstToneAt(s, i + 1, k);
    }
  }

  /** A name ending in "::skin-tone-N" converts to its converted base
      followed by the Mattermost spelling of tone N. */
  lemma SkinToneSuffix(base: string, n: nat)
    requires 2 <= n <= 6
    ensures SlackConvertEmojiName(base + SlackTone(n)) == SlackConvertEmojiName(base) + ToneSuffix(n)
  {
    var s := base + SlackTone(n);
    OnlyTone(base, n);
    assert s[|base|] == ':';
    assert TrimSuffix(s, SlackTone(n)) == base;
  }

  /** Tones stack: the innermost suffix is converted first. */
  lemma TwoSkinTones(base: string, m: nat, n: nat)
    requires 2 <= m <= 6 && 2 <= n <= 6
    ensures SlackConvertEmojiName(base + SlackTone(m) + SlackTone(n))
         == SlackConvertEmojiName(base) + ToneSuffix(m) + ToneSuffix(n)
  {
    SkinToneSuffix(base + SlackTone(m), n);
    SkinToneSuffix(base, m);
  }

  /** A compound name without a tone suffix has ':' replaced by '_'. */
  lemma CompoundEmoji(name: string)
    requires forall n :: 2 <= n <= 6 ==> !HasSuffix(name, SlackTone(n))
    ensures SlackConvertEmojiName(name) == ReplaceColons(name)
  {
    assert FirstTone(name, 0).None? by {
      forall j | 0 <= j < |SkinTones| ensures !HasSuffix(name, SkinTones[j].slack) {
        assert SlackTone(j + 2) == SkinTones[j].slack;
      }
    }
    if ':' !in name {
      assert ReplaceColons(name) == name;
    }
  }

  /** The conversion is idempotent: its output has no ':' left to rewrite. */
  lemma ConvertIdempotent(name: string)
    ensures SlackConvertEmojiName(SlackConvertEmojiName(name)) == SlackConvertEmojiName(name)
  {
  }
}
