/**
 * The member card: a link to a member's profile showing a display name
 * (the username, or the wallet shortened to its first six and last four
 * characters) and an avatar (the image when one is set, otherwise the
 * upper-cased first character of the display name), and the bio when
 * it is truthy.
 */
module MemberCard {
  import opened Common
  import opened Text

  /** `walletAddress.slice(0, 6) + "..." + walletAddress.slice(-4)`. */
  function ShortWallet(w: string): (s: string)
    ensures |w| >= 10 ==> |s| == 13 && s[..6] == w[..6] && s[6..9] == "..." && s[9..] == w[|w| - 4..]
    ensures |w| < 10 ==> |s| <= 3 + 2 * |w|
  {
    SliceHead(w, 6);
    SliceTail(w, 4);
    Slice(w, 0, Some(6)) + "..." + Slice(w, -4, None)
  }

  /** `username || shortened wallet`. */
  function DisplayName(username: Option<string>, w: string): (name: string)
    ensures name != ""
    ensures StrTruthy(username) ==> name == username.value
    ensures !StrTruthy(username) ==> name == ShortWallet(w)
  {
    StrOr(username, ShortWallet(w))
  }

  /** The avatar shown: the image, or a letter. */
  datatype Avatar = Image(src: string) | Initial(letter: string)

  /** `displayName.charAt(0).toUpperCase()`. */
  function AvatarOf(avatar: Option<string>, displayName: string): (a: Avatar)
    ensures StrTruthy(avatar) <==> a.Image?
    ensures a.Image? ==> a.src == avatar.value
    ensures a.Initial? && displayName == [] ==> a.letter == []
    ensures a.Initial? && displayName != [] ==> a.letter == [UpperChar(displayName[0])]
  {
    if StrTruthy(avatar) then Image(avatar.value)
    else Initial(if displayName == [] then [] else [UpperChar(displayName[0])])
  }

  /** The link target. */
  function ProfileHref(w: string): (href: string)
    ensures |href| == 17 + |w| && href[17..] == w
  {
    "/profile?address=" + w
  }

  /** The card as rendered: link, display name, avatar, and the bio line
      when one is shown. */
  datatype Card = Card(href: string, displayName: string, avatar: Avatar, bio: Option<string>)

  /** The card for a member; `bio` is shown only when it is truthy. */
  function Render(w: string, username: Option<string>, avatar: Option<string>, bio: Option<string>): (r: Card)
    ensures r.displayName != "" && |r.href| == 17 + |w| && r.href[17..] == w
    ensures r.avatar.Image? <==> StrTruthy(avatar)
    ensures r.bio.Some? <==> StrTruthy(bio)
    ensures r.bio.Some? ==> r.bio == bio
  {
    var name := DisplayName(username, w);
    Card(ProfileHref(w), name, AvatarOf(avatar, name), if StrTruthy(bio) then bio else None)
  }

  /** A card without an avatar always shows a one-letter initial. */
  lemma InitialIsOneLetter(w: string, username: Option<string>, avatar: Option<string>)
    requires !StrTruthy(avatar)
    ensures Render(w, username, avatar, None).avatar.Initial?
    ensures |Render(w, username, avatar, None).avatar.letter| == 1
  {
  }

  /** Without a username, a wallet of ten or more characters shows as its
      first six characters, "...", and its last four. */
  lemma WalletShortened(w: string, username: Option<string>)
    requires !StrTruthy(username) && |w| >= 10
    ensures var name := Render(w, username, None, None).displayName;
      |name| == 13 && name == w[..6] + "..." + w[|w| - 4..]
  {
    var name := Render(w, username, None, None).displayName;
    assert name == name[..6] + name[6..9] + name[9..];
  }

  /** The initial of a shortened wallet is its first character, upper-cased. */
  lemma WalletInitial(w: string)
    requires w != []
    ensures Render(w, None, None, None).avatar == Initial([UpperChar(w[0])])
  {
    SliceHead(w, 6);
  }
}
