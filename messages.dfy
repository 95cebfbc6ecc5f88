/**
 * Telegram message links and message identities (app/messages.py).
 *
 * `parse_telegram_link` runs `re.search` with the pattern
 * `https?://t\.me/(c/)?([\w_]+)/([0-9]+)`. The functions below spell that
 * search out: the leftmost position where the pattern matches, and at that
 * position the match the regex engine's backtracking finds first (with the
 * optional `c/` group taken when the rest of the pattern can still match).
 */
module Messages {
  import opened Wrappers
  import opened Text

  /** The peer a link names: a public handle, or the numeric id of a private channel. */
  datatype Peer = Handle(name: string) | ChannelNumber(id: int)

  /** The attributes `message_identity` reads from a message's `peer_id` with `getattr`. */
  datatype PeerId = PeerId(channelId: Option<int>, chatId: Option<int>, userId: Option<int>)

  /** A fetched message: its id and its `peer_id`, which may be missing. */
  datatype Message = Message(id: int, peerId: Option<PeerId>)

  const HttpsPrefix: string := "https://t.me/"
  const HttpPrefix: string := "http://t.me/"

  /** `https://t.me/` when `secure`, else `http://t.me/`. */
  function LinkPrefix(secure: bool): string {
    if secure then HttpsPrefix else HttpPrefix
  }

  // ---------------------------------------------------------------------
  // The pattern, position by position
  // ---------------------------------------------------------------------

  /** Where `https?://t\.me/` ends when it matches at `s`. */
  function PrefixEnd(text: string, s: nat): (p: Option<nat>)
    ensures p.Some? ==> p.value <= |text|
    ensures p.Some? <==> OccursAt(text, HttpsPrefix, s) || OccursAt(text, HttpPrefix, s)
    ensures OccursAt(text, HttpsPrefix, s) ==> p == Some(s + |HttpsPrefix|)
    ensures !OccursAt(text, HttpsPrefix, s) && OccursAt(text, HttpPrefix, s) ==> p == Some(s + |HttpPrefix|)
  {
    if OccursAt(text, HttpsPrefix, s) then Some(s + |HttpsPrefix|)
    else if OccursAt(text, HttpPrefix, s) then Some(s + |HttpPrefix|)
    else None
  }

  /**
   * `([\w_]+)/([0-9]+)` at `p`: the end of the peer part and the end of the
   * message-id digits, when it matches.
   */
  function TailAt(text: string, p: nat): (r: Option<(nat, nat)>)
    requires p <= |text|
    ensures r.Some? ==> p < r.value.0 < |text| && r.value.0 + 1 < r.value.1 <= |text|
    ensures r.Some? ==> text[r.value.0] == '/'
    ensures r.Some? ==> forall k :: p <= k < r.value.0 ==> IsWordChar(text[k])
    ensures r.Some? ==> forall k :: r.value.0 < k < r.value.1 ==> IsDigit(text[k])
  {
    var we := RunEnd(text, p, IsWordChar);
    if p < we < |text| && text[we] == '/' then
      var de := RunEnd(text, we + 1, IsDigit);
      if de > we + 1 then Some((we, de)) else None
    else None
  }

  /** One match of the link pattern: where it starts and what its three groups hold. */
  datatype LinkMatch = LinkMatch(start: nat, isPrivate: bool, peerPart: string, idDigits: string)

  /** The groups of a tail match at `p`, for a match that started at `s`. */
  function TailMatch(text: string, s: nat, p: nat, isPrivate: bool): (m: Option<LinkMatch>)
    requires p <= |text|
    ensures m.Some? <==> TailAt(text, p).Some?
    ensures m.Some? ==> m.value.start == s && m.value.isPrivate == isPrivate
    ensures m.Some? ==> |m.value.peerPart| > 0 && |m.value.idDigits| > 0
    ensures m.Some? ==> AllDigits(m.value.idDigits)
    ensures m.Some? ==> forall k :: 0 <= k < |m.value.peerPart| ==> IsWordChar(m.value.peerPart[k])
  {
    match TailAt(text, p)
    case None => None
    case Some(ends) =>
      var peer, digits := text[p..ends.0], text[ends.0 + 1..ends.1];
      assert forall k :: 0 <= k < |peer| ==> peer[k] == text[p + k];
      assert forall k :: 0 <= k < |digits| ==> digits[k] == text[ends.0 + 1 + k];
      Some(LinkMatch(s, isPrivate, peer, digits))
  }

  /** The match of the link pattern that starts at `s`, if any. */
  function MatchAt(text: string, s: nat): (m: Option<LinkMatch>)
    ensures m.Some? ==> m.value.start == s && |m.value.peerPart| > 0 && |m.value.idDigits| > 0
    ensures m.Some? ==> AllDigits(m.value.idDigits)
    ensures m.Some? ==> forall k :: 0 <= k < |m.value.peerPart| ==> IsWordChar(m.value.peerPart[k])
  {
    match PrefixEnd(text, s)
    case None => None
    case Some(p) =>
      if OccursAt(text, "c/", p) && TailAt(text, p + 2).Some? then TailMatch(text, s, p + 2, true)
      else TailMatch(text, s, p, false)
  }

  /** `re.search` from `from` on: the leftmost match. */
  function Search(text: string, from: nat): (r: Option<LinkMatch>)
    ensures r.Some? ==> from <= r.value.start < |text| && MatchAt(text, r.value.start) == r
    ensures r.Some? ==> forall j :: from <= j < r.value.start ==> MatchAt(text, j).None?
    ensures r.None? ==> forall j :: from <= j ==> MatchAt(text, j).None?
    decreases |text| - from
  {
    if from >= |text| then
      NoMatchFromEnd(text, from);
      None
    else if MatchAt(text, from).Some? then MatchAt(text, from)
    else Search(text, from + 1)
  }

  /** No match starts at or past the end of the text. */
  lemma NoMatchFromEnd(text: string, from: nat)
    requires from >= |text|
    ensures forall j :: from <= j ==> MatchAt(text, j).None?
  {
    assert forall j :: from <= j ==> PrefixEnd(text, j).None?;
  }

  // ---------------------------------------------------------------------
  // parse_telegram_link
  // ---------------------------------------------------------------------

  /**
   * What `parse_telegram_link` does with a link: no match (`None`), a peer
   * and message id, or the `ValueError` raised when `int(f"-100{peer}")`
   * rejects the peer part of a `c/` link.
   */
  datatype ParseResult = NoLink | Parsed(peer: Peer, messageId: nat) | PeerNotInteger

  function ParseTelegramLink(link: string): (r: ParseResult)
    ensures r.NoLink? <==> forall s :: MatchAt(link, s).None?
    ensures r.Parsed? && r.peer.Handle? ==> |r.peer.name| > 0 && forall k :: 0 <= k < |r.peer.name| ==> IsWordChar(r.peer.name[k])
  {
    match Search(link, 0)
    case None => NoLink
    case Some(m) =>
      var id := DigitsValue(m.idDigits);
      if m.isPrivate then
        match ParseInt("-100" + m.peerPart)
        case Some(v) => Parsed(ChannelNumber(v), id)
        case None => PeerNotInteger
      else Parsed(Handle(m.peerPart), id)
  }

  /** The link `http(s)://t.me/<peer>/<digits>`, or `.../c/<peer>/<digits>` when `isPrivate`. */
  function LinkText(secure: bool, isPrivate: bool, peer: string, digits: string): string {
    LinkPrefix(secure) + ((if isPrivate then "c/" else "") + (peer + ("/" + digits)))
  }

  /** The link to message `id`, its number written in decimal. */
  function MakeLink(secure: bool, isPrivate: bool, peer: string, id: nat): string {
    LinkText(secure, isPrivate, peer, DecimalString(id))
  }

  /** A non-empty run of `\w` characters: a peer part the pattern accepts. */
  predicate WordString(s: string) {
    |s| > 0 && forall k :: 0 <= k < |s| ==> IsWordChar(s[k])
  }

  /** A non-empty run of decimal digits. */
  predicate DigitString(s: string) {
    |s| > 0 && AllDigits(s)
  }

  /** A peer part, a slash and digits that run to the end of the text form a tail match. */
  lemma TailOfMadeLink(text: string, p: nat, peer: string, digits: string, s: nat, isPrivate: bool)
    requires WordString(peer) && DigitString(digits)
    requires p <= |text| && text[p..] == peer + ("/" + digits)
    ensures TailMatch(text, s, p, isPrivate) == Some(LinkMatch(s, isPrivate, peer, digits))
  {
    assert digits + [] == digits;
    TailBeforeSuffix(text, p, peer, digits, [], s, isPrivate);
  }

  /** The groups of a tail match are the text between its ends. */
  lemma TailMatchIs(text: string, s: nat, q: nat, isPrivate: bool, we: nat, de: nat, peer: string, digits: string)
    requires q < we < |text| && text[we] == '/'
    requires RunEnd(text, q, IsWordChar) == we && RunEnd(text, we + 1, IsDigit) == de > we + 1
    requires text[q..we] == peer && text[we + 1..de] == digits
    ensures TailMatch(text, s, q, isPrivate) == Some(LinkMatch(s, isPrivate, peer, digits))
  {
    assert TailAt(text, q) == Some((we, de));
  }

  /** A peer part followed by a slash: the word run is exactly the peer part, and `after` follows the slash. */
  lemma WordRunThenSlash(text: string, p: nat, peer: string, after: string)
    requires WordString(peer)
    requires p <= |text| && text[p..] == peer + ("/" + after)
    ensures p + |peer| < |text| && text[p + |peer|] == '/'
    ensures RunEnd(text, p, IsWordChar) == p + |peer| && text[p..p + |peer|] == peer
    ensures text[p + |peer| + 1..] == after
  {
    RunOfPiece(text, p, peer, "/" + after, IsWordChar);
    SplitAt(text, p + |peer|, "/", after);
  }

  /** A digit string followed by a non-digit or the end: the digit run is exactly that string. */
  lemma DigitRun(text: string, q: nat, digits: string, rest: string)
    requires q <= |text| && text[q..] == digits + rest
    requires AllDigits(digits) && (rest == [] || !IsDigit(rest[0]))
    ensures q + |digits| <= |text|
    ensures RunEnd(text, q, IsDigit) == q + |digits| && text[q..q + |digits|] == digits
  {
    RunOfPiece(text, q, digits, rest, IsDigit);
  }

  /** A word run that reaches the end of the text is not followed by `/`. */
  lemma NoTailAtDigitsEnd(text: string, p: nat)
    requires p <= |text|
    requires AllDigits(text[p..])
    ensures TailAt(text, p).None?
  {
    assert forall k :: p <= k < |text| ==> IsWordChar(text[k]) by {
      forall k | p <= k < |text| ensures IsWordChar(text[k]) {
        assert text[p..][k - p] == text[k];
      }
    }
    RunEndIs(text, p, IsWordChar, |text|);
  }

  lemma PrefixOfMadeLink(secure: bool, rest: string)
    ensures PrefixEnd(LinkPrefix(secure) + rest, 0) == Some(|LinkPrefix(secure)|)
    ensures (LinkPrefix(secure) + rest)[|LinkPrefix(secure)|..] == rest
  {
    var text := LinkPrefix(secure) + rest;
    assert text[..|LinkPrefix(secure)|] == LinkPrefix(secure);
    assert text[|LinkPrefix(secure)|..] == rest;
    if !secure {
      assert text[4] == ':';
      assert !OccursAt(text, HttpsPrefix, 0);
    }
  }

  /** The `c/` alternative does not match after the prefix of a public link. */
  lemma PublicLinkNotPrivate(text: string, p: nat, handle: string, digits: string)
    requires WordString(handle) && DigitString(digits)
    requires p <= |text| && text[p..] == handle + ("/" + digits)
    ensures !(OccursAt(text, "c/", p) && TailAt(text, p + 2).Some?)
  {
    if OccursAt(text, "c/", p) {
      // Only the handle "c" puts "c/" here; then the digits run to the end.
      assert text[p..p + 2] == "c/";
      assert text[p..][1] == text[p + 1] == '/';
      assert |handle| == 1;
      assert text[p + 2..] == text[p..][2..] == digits;
      NoTailAtDigitsEnd(text, p + 2);
    }
  }

  /** A match at the very start is the leftmost one. */
  lemma SearchAtStart(text: string, m: LinkMatch)
    requires MatchAt(text, 0) == Some(m)
    ensures Search(text, 0) == Some(m)
  {
  }

  /** With the `c/` group taken, the match at 0 is the tail match after `c/`. */
  lemma MatchAtPrivate(text: string, p: nat)
    requires PrefixEnd(text, 0) == Some(p)
    requires OccursAt(text, "c/", p) && TailAt(text, p + 2).Some?
    ensures MatchAt(text, 0) == TailMatch(text, 0, p + 2, true)
  {
  }

  /** Without the `c/` group, the match at 0 is the tail match right after the prefix. */
  lemma MatchAtPublic(text: string, p: nat)
    requires PrefixEnd(text, 0) == Some(p)
    requires !(OccursAt(text, "c/", p) && TailAt(text, p + 2).Some?)
    ensures MatchAt(text, 0) == TailMatch(text, 0, p, false)
  {
  }

  /** After a prefix ending at `p`, a handle, a slash and digits: the leftmost match is that link. */
  lemma PublicTailMatch(text: string, p: nat, handle: string, digits: string)
    requires PrefixEnd(text, 0) == Some(p)
    requires WordString(handle) && DigitString(digits)
    requires p <= |text| && text[p..] == handle + ("/" + digits)
    ensures Search(text, 0) == Some(LinkMatch(0, false, handle, digits))
  {
    TailOfMadeLink(text, p, handle, digits, 0, false);
    PublicLinkNotPrivate(text, p, handle, digits);
    MatchAtPublic(text, p);
    SearchAtStart(text, LinkMatch(0, false, handle, digits));
  }

  /** After a prefix ending at `p`, `c/`, a peer part, a slash and digits: the leftmost match is that link. */
  lemma PrivateTailMatch(text: string, p: nat, part: string, digits: string)
    requires PrefixEnd(text, 0) == Some(p)
    requires WordString(part) && DigitString(digits)
    requires p <= |text| && text[p..] == "c/" + (part + ("/" + digits))
    ensures Search(text, 0) == Some(LinkMatch(0, true, part, digits))
  {
    SplitAt(text, p, "c/", part + ("/" + digits));
    TailOfMadeLink(text, p + 2, part, digits, 0, true);
    MatchAtPrivate(text, p);
    SearchAtStart(text, LinkMatch(0, true, part, digits));
  }

  /** The leftmost match of a public link is the whole link, its handle and its digits. */
  lemma PublicLinkMatch(secure: bool, handle: string, digits: string)
    requires WordString(handle) && DigitString(digits)
    ensures Search(LinkText(secure, false, handle, digits), 0) == Some(LinkMatch(0, false, handle, digits))
  {
    var rest := handle + ("/" + digits);
    assert LinkText(secure, false, handle, digits) == LinkPrefix(secure) + rest;
    PrefixOfMadeLink(secure, rest);
    PublicTailMatch(LinkPrefix(secure) + rest, |LinkPrefix(secure)|, handle, digits);
  }

  /** The leftmost match of a `c/` link is the whole link, with the `c/` group taken. */
  lemma PrivateLinkMatch(secure: bool, part: string, digits: string)
    requires WordString(part) && DigitString(digits)
    ensures Search(LinkText(secure, true, part, digits), 0) == Some(LinkMatch(0, true, part, digits))
  {
    var rest := "c/" + (part + ("/" + digits));
    assert LinkText(secure, true, part, digits) == LinkPrefix(secure) + rest;
    PrefixOfMadeLink(secure, rest);
    PrivateTailMatch(LinkPrefix(secure) + rest, |LinkPrefix(secure)|, part, digits);
  }

  /** A public link to message `id` parses back to its handle and to `id`. */
  lemma PublicLinkParses(secure: bool, handle: string, id: nat)
    requires WordString(handle)
    ensures ParseTelegramLink(MakeLink(secure, false, handle, id)) == Parsed(Handle(handle), id)
  {
    PublicLinkMatch(secure, handle, DecimalString(id));
  }

  // ---------------------------------------------------------------------
  // Links followed by more text
  // ---------------------------------------------------------------------

  /**
   * Text that may follow a link without changing its match: nothing, or
   * something that starts with neither a word character (so not a digit)
   * nor `/`, such as `?single` or a space.
   */
  predicate LinkEnds(rest: string) {
    rest == [] || (!IsWordChar(rest[0]) && rest[0] != '/')
  }

  /** A peer part, a slash and digits, then text that ends the digits: a tail match of those groups. */
  lemma TailBeforeSuffix(text: string, p: nat, peer: string, digits: string, rest: string, s: nat, isPrivate: bool)
    requires WordString(peer) && DigitString(digits) && LinkEnds(rest)
    requires p <= |text| && text[p..] == peer + ("/" + (digits + rest))
    ensures TailMatch(text, s, p, isPrivate) == Some(LinkMatch(s, isPrivate, peer, digits))
  {
    WordRunThenSlash(text, p, peer, digits + rest);
    DigitRun(text, p + |peer| + 1, digits, rest);
    TailMatchIs(text, s, p, isPrivate, p + |peer|, p + |peer| + 1 + |digits|, peer, digits);
  }

  /** The `c/` alternative does not match after the prefix of a public link, whatever ends it. */
  lemma PublicNotPrivateBeforeSuffix(text: string, p: nat, handle: string, digits: string, rest: string)
    requires WordString(handle) && DigitString(digits) && LinkEnds(rest)
    requires p <= |text| && text[p..] == handle + ("/" + (digits + rest))
    ensures !(OccursAt(text, "c/", p) && TailAt(text, p + 2).Some?)
  {
    if OccursAt(text, "c/", p) {
      assert text[p..p + 2] == "c/";
      assert text[p..][1] == text[p + 1] == '/';
      assert |handle| == 1;
      assert text[p + 2..] == text[p..][2..] == digits + rest;
      RunOfPiece(text, p + 2, digits, rest, IsWordChar);
    }
  }

  /**
   * A public link followed by text that ends it parses to its handle and
   * the value of its digits, leading zeros included (`/007` is message 7).
   */
  lemma PublicLinkBeforeSuffixParses(secure: bool, handle: string, digits: string, rest: string)
    requires WordString(handle) && DigitString(digits) && LinkEnds(rest)
    ensures ParseTelegramLink(LinkText(secure, false, handle, digits) + rest) == Parsed(Handle(handle), DigitsValue(digits))
  {
    var tail := handle + ("/" + (digits + rest));
    LinkTextBeforeSuffix(secure, false, handle, digits, rest);
    assert "" + tail == tail;
    PublicParseAfterPrefix(secure, handle, digits, rest);
  }

  /** A link followed by more text is the prefix, then the optional `c/`, the peer part, `/`, the digits and that text. */
  lemma LinkTextBeforeSuffix(secure: bool, isPrivate: bool, peer: string, digits: string, rest: string)
    ensures LinkText(secure, isPrivate, peer, digits) + rest
         == LinkPrefix(secure) + ((if isPrivate then "c/" else "") + (peer + ("/" + (digits + rest))))
  {
    var c := if isPrivate then "c/" else "";
    calc {
      LinkText(secure, isPrivate, peer, digits) + rest;
      (LinkPrefix(secure) + (c + (peer + ("/" + digits)))) + rest;
      { AppendAssoc4(LinkPrefix(secure), c, peer, "/" + digits, rest); }
      LinkPrefix(secure) + (c + (peer + (("/" + digits) + rest)));
      { assert ("/" + digits) + rest == "/" + (digits + rest); }
      LinkPrefix(secure) + (c + (peer + ("/" + (digits + rest))));
    }
  }

  /** `(a + (b + (c + d))) + e` regrouped to the right. */
  lemma AppendAssoc4(a: string, b: string, c: string, d: string, e: string)
    ensures (a + (b + (c + d))) + e == a + (b + (c + (d + e)))
  {
    assert (c + d) + e == c + (d + e);
    assert (b + (c + d)) + e == b + ((c + d) + e);
  }

  /** The prefix, a handle, a slash, digits and text that ends them: `parse_telegram_link` finds that handle and id. */
  lemma PublicParseAfterPrefix(secure: bool, handle: string, digits: string, rest: string)
    requires WordString(handle) && DigitString(digits) && LinkEnds(rest)
    ensures ParseTelegramLink(LinkPrefix(secure) + (handle + ("/" + (digits + rest))))
         == Parsed(Handle(handle), DigitsValue(digits))
  {
    var tail := handle + ("/" + (digits + rest));
    var text := LinkPrefix(secure) + tail;
    PrefixOfMadeLink(secure, tail);
    PublicSearchBeforeSuffix(text, |LinkPrefix(secure)|, handle, digits, rest);
    ParseOfPublicMatch(text, LinkMatch(0, false, handle, digits));
  }

  /** What `parse_telegram_link` returns once the leftmost match is known to be a public match. */
  lemma ParseOfPublicMatch(link: string, m: LinkMatch)
    requires Search(link, 0) == Some(m) && !m.isPrivate
    ensures ParseTelegramLink(link) == Parsed(Handle(m.peerPart), DigitsValue(m.idDigits))
  {
  }

  /** After a prefix ending at `p`, a handle, a slash, digits and text that ends them: the leftmost match is that link. */
  lemma PublicSearchBeforeSuffix(text: string, p: nat, handle: string, digits: string, rest: string)
    requires WordString(handle) && DigitString(digits) && LinkEnds(rest)
    requires PrefixEnd(text, 0) == Some(p) && text[p..] == handle + ("/" + (digits + rest))
    ensures Search(text, 0) == Some(LinkMatch(0, false, handle, digits))
  {
    TailBeforeSuffix(text, p, handle, digits, rest, 0, false);
    PublicNotPrivateBeforeSuffix(text, p, handle, digits, rest);
    MatchAtPublic(text, p);
    SearchAtStart(text, LinkMatch(0, false, handle, digits));
  }

  /** `int(f"-100{digits}")` for a digit string. */
  lemma MinusHundredDigits(digits: string)
    requires AllDigits(digits)
    ensures AllDigits("100" + digits)
    ensures ParseInt("-100" + digits) == Some(0 - DigitsValue("100" + digits))
  {
    HundredDigits(digits);
    ParseNegativeDigits("-100" + digits, "100" + digits);
  }

  /** `-100<digits>` is a minus sign before the digit string `100<digits>`. */
  lemma HundredDigits(digits: string)
    requires AllDigits(digits)
    ensures AllDigits("100" + digits)
    ensures "-100" + digits == "-" + ("100" + digits)
  {
    assert AllDigits("100");
    AllDigitsConcat("100", digits);
  }

  /** `int(f"-100{part}")` raises when `part` holds a letter. */
  lemma MinusHundredLetter(part: string, k: nat)
    requires k < |part| && IsAsciiLetter(part[k])
    requires forall j :: 0 <= j < |part| ==> IsWordChar(part[j])
    ensures ParseInt("-100" + part).None?
  {
    var lit := "-100" + part;
    var body := "100" + part;
    assert lit[1..] == body;
    assert lit[|lit| - 1] == part[|part| - 1];
    StripNoEdgeSpace(lit);
    assert body[k + 3] == part[k];
    assert !GroupCharOk(body, k + 3);
  }

  /** What `parse_telegram_link` returns once the leftmost match is known to be a `c/` match. */
  lemma ParseOfPrivateMatch(link: string, m: LinkMatch)
    requires Search(link, 0) == Some(m) && m.isPrivate
    ensures ParseTelegramLink(link) == PrivateResult(m.peerPart, m.idDigits)
  {
  }

  /** The result for a `c/` match with these groups: `int(f"-100{part}")` decides it. */
  function PrivateResult(part: string, digits: string): ParseResult
    requires AllDigits(digits)
  {
    match ParseInt("-100" + part)
    case Some(v) => Parsed(ChannelNumber(v), DigitsValue(digits))
    case None => PeerNotInteger
  }

  /** A `c/` link parses as its own groups say. */
  lemma PrivateLinkResult(secure: bool, part: string, digits: string)
    requires WordString(part) && DigitString(digits)
    ensures ParseTelegramLink(LinkText(secure, true, part, digits)) == PrivateResult(part, digits)
  {
    PrivateLinkMatch(secure, part, digits);
    ParseOfPrivateMatch(LinkText(secure, true, part, digits), LinkMatch(0, true, part, digits));
  }

  /** A `c/` link followed by text that ends it parses as its own groups say. */
  lemma PrivateLinkBeforeSuffixResult(secure: bool, part: string, digits: string, rest: string)
    requires WordString(part) && DigitString(digits) && LinkEnds(rest)
    ensures ParseTelegramLink(LinkText(secure, true, part, digits) + rest) == PrivateResult(part, digits)
  {
    var tail := "c/" + (part + ("/" + (digits + rest)));
    var text := LinkPrefix(secure) + tail;
    assert LinkText(secure, true, part, digits) + rest == text;
    PrefixOfMadeLink(secure, tail);
    PrivateSearchBeforeSuffix(text, |LinkPrefix(secure)|, part, digits, rest);
    ParseOfPrivateMatch(text, LinkMatch(0, true, part, digits));
  }

  /** After a prefix ending at `p`, `c/`, a peer part, a slash, digits and text that ends them: the leftmost match is that `c/` link. */
  lemma PrivateSearchBeforeSuffix(text: string, p: nat, part: string, digits: string, rest: string)
    requires WordString(part) && DigitString(digits) && LinkEnds(rest)
    requires PrefixEnd(text, 0) == Some(p) && text[p..] == "c/" + (part + ("/" + (digits + rest)))
    ensures Search(text, 0) == Some(LinkMatch(0, true, part, digits))
  {
    SplitAt(text, p, "c/", part + ("/" + (digits + rest)));
    TailBeforeSuffix(text, p + 2, part, digits, rest, 0, true);
    MatchAtPrivate(text, p);
    SearchAtStart(text, LinkMatch(0, true, part, digits));
  }

  /**
   * A private `c/<digits>/<id>` link parses to the integer `-100<digits>`
   * and to the value of its trailing digits.
   */
  lemma PrivateLinkParses(secure: bool, digits: string, id: nat)
    requires DigitString(digits)
    ensures AllDigits("100" + digits)
    ensures ParseInt("-100" + digits) == Some(0 - DigitsValue("100" + digits))
    ensures ParseTelegramLink(MakeLink(secure, true, digits, id)) == Parsed(ChannelNumber(ParseInt("-100" + digits).value), id)
  {
    MinusHundredDigits(digits);
    PrivateLinkResult(secure, digits, DecimalString(id));
  }

  /**
   * A `c/` link whose peer part holds a letter makes `int()` raise: the
   * parse fails with an error instead of returning `None`.
   */
  lemma PrivateLinkWithLetterRaises(secure: bool, part: string, id: nat, k: nat)
    requires WordString(part)
    requires k < |part| && IsAsciiLetter(part[k])
    ensures ParseTelegramLink(MakeLink(secure, true, part, id)) == PeerNotInteger
  {
    MinusHundredLetter(part, k);
    PrivateLinkResult(secure, part, DecimalString(id));
  }

  /** The digits `10012` read as a number, one digit at a time. */
  lemma DigitsValueExample()
    ensures DigitsValue("10012") == 10012
  {
    assert DigitsValue("1") == 1;
    DigitsValueSnoc("1", '0');
    assert "1" + ['0'] == "10";
    DigitsValueSnoc("10", '0');
    assert "10" + ['0'] == "100";
    DigitsValueSnoc("100", '1');
    assert "100" + ['1'] == "1001";
    DigitsValueSnoc("1001", '2');
    assert "1001" + ['2'] == "10012";
  }

  /** The digits `10012345`: `10012` followed by `3`, `4` and `5`. */
  lemma DigitsValueLongExample()
    ensures DigitsValue("10012345") == 10012345
  {
    DigitsValueExample();
    DigitsValueSnoc("10012", '3');
    assert "10012" + ['3'] == "100123";
    DigitsValueSnoc("100123", '4');
    assert "100123" + ['4'] == "1001234";
    DigitsValueSnoc("1001234", '5');
    assert "1001234" + ['5'] == "10012345";
  }

  /** `https://t.me/c/12345/42` names channel -10012345, message 42. */
  lemma PrivateLinkExample(link: string)
    requires link == "https://t.me/c/12345/42"
    ensures ParseTelegramLink(link) == Parsed(ChannelNumber(-10012345), 42)
  {
    PrivateLinkText(link);
    MinusHundredExample();
    PrivateLinkParses(true, "12345", 42);
  }

  /** `int("-100" + "12345")` is -10012345. */
  lemma MinusHundredExample()
    ensures ParseInt("-100" + "12345") == Some(-10012345)
  {
    DigitsValueLongExample();
    assert "100" + "12345" == "10012345";
    MinusHundredDigits("12345");
  }

  /** `https://t.me/c/12345/42` is the `c/` link to message 42 with peer part `12345`. */
  lemma PrivateLinkText(link: string)
    requires link == "https://t.me/c/12345/42"
    ensures MakeLink(true, true, "12345", 42) == link
  {
    assert DecimalString(42) == "42";
  }

  /** `int("-1001_2")` reads the digit groups `1001` and `2`. */
  lemma UnderscoreIntExample(lit: string)
    requires lit == "-1001_2"
    ensures ParseInt(lit) == Some(-10012)
  {
    StripNoEdgeSpace(lit);
    assert lit[1..] == "1001_2";
    assert IsDigitGroups("1001_2") by {
      assert GroupCharOk("1001_2", 4);
    }
    UnderscoresDropped();
    DigitsValueExample();
  }

  /** Dropping the underscore of `1001_2` leaves `10012`. */
  lemma UnderscoresDropped()
    ensures DropUnderscores("1001_2") == "10012"
  {
    assert DropUnderscores("_2") == "2";
    assert DropUnderscores("1_2") == "12";
    assert DropUnderscores("01_2") == "012";
    assert DropUnderscores("001_2") == "0012";
  }

  /** Underscores between digits are accepted by `int()`: `c/1_2/5` is channel -10012. */
  lemma PrivateLinkUnderscoreExample(link: string)
    requires link == "https://t.me/c/1_2/5"
    ensures ParseTelegramLink(link) == Parsed(ChannelNumber(-10012), 5)
  {
    UnderscoreIntExample("-100" + "1_2");
    assert DigitsValue("5") == 5;
    assert PrivateResult("1_2", "5") == Parsed(ChannelNumber(-10012), 5);
    UnderscoreLinkText(link);
    PrivateLinkResult(true, "1_2", "5");
  }

  /** `https://t.me/c/1_2/5` is the `c/` link with groups `1_2` and `5`. */
  lemma UnderscoreLinkText(link: string)
    requires link == "https://t.me/c/1_2/5"
    ensures LinkText(true, true, "1_2", "5") == link
  {
  }

  // ---------------------------------------------------------------------
  // message_identity and message_identity_string
  // ---------------------------------------------------------------------

  /**
   * `message_identity`: the message id paired with the first of the peer's
   * `channel_id`, `chat_id`, `user_id` that is set; no peer gives `None`.
   */
  function MessageIdentity(m: Message): (r: (Option<int>, int))
    ensures r.1 == m.id
    ensures m.peerId.None? ==> r.0.None?
    ensures m.peerId.Some? && m.peerId.value.channelId.Some? ==> r.0 == m.peerId.value.channelId
    ensures m.peerId.Some? && m.peerId.value.channelId.None? && m.peerId.value.chatId.Some? ==>
              r.0 == m.peerId.value.chatId
    ensures m.peerId.Some? && m.peerId.value.channelId.None? && m.peerId.value.chatId.None? ==>
              r.0 == m.peerId.value.userId
  {
    match m.peerId
    case None => (None, m.id)
    case Some(peer) =>
      if peer.channelId.Some? then (peer.channelId, m.id)
      else if peer.chatId.Some? then (peer.chatId, m.id)
      else (peer.userId, m.id)
  }

  /** Python's `f"{x}"` of an optional integer. */
  function OptionalIntText(x: Option<int>): (s: string)
    ensures ':' !in s
  {
    match x
    case None => "None"
    case Some(v) => IntToString(v)
  }

  /** An identity written out as `"<peer>:<id>"`. */
  function IdentityText(identity: (Option<int>, int)): string {
    OptionalIntText(identity.0) + ":" + IntToString(identity.1)
  }

  /** `message_identity_string`: the dedup key of a message. */
  function MessageIdentityString(m: Message): string {
    IdentityText(MessageIdentity(m))
  }

  /** Reads an identity back by splitting at the first `:`. */
  function ParseIdentity(key: string): Option<(Option<int>, int)> {
    match Find(key, ":")
    case None => None
    case Some(i) =>
      var left, right := key[..i], key[i + 1..];
      var peer: Option<Option<int>> :=
        if left == "None" then Some(None)
        else match ParseInt(left) { case Some(v) => Some(Some(v)) case None => None };
      match (peer, ParseInt(right))
      case (Some(p), Some(id)) => Some((p, id))
      case _ => None
  }

  /** Splitting a key at its first `:` recovers the identity it was built from. */
  lemma IdentityTextRoundTrip(identity: (Option<int>, int))
    ensures ParseIdentity(IdentityText(identity)) == Some(identity)
  {
    var left := OptionalIntText(identity.0);
    var key := IdentityText(identity);
    assert key[|left|] == ':';
    assert OccursAt(key, ":", |left|);
    forall j | 0 <= j < |left| ensures !OccursAt(key, ":", j) {
      assert key[j] == left[j];
    }
    assert Find(key, ":") == Some(|left|);
    assert key[..|left|] == left;
    assert key[|left| + 1..] == IntToString(identity.1);
    ParseIntToString(identity.1);
    match identity.0 {
      case None =>
      case Some(v) =>
        ParseIntToString(v);
        assert left != "None";
    }
  }

  /** Distinct identities have distinct keys. */
  lemma IdentityStringInjective(m1: Message, m2: Message)
    requires MessageIdentityString(m1) == MessageIdentityString(m2)
    ensures MessageIdentity(m1) == MessageIdentity(m2)
  {
    IdentityTextRoundTrip(MessageIdentity(m1));
    IdentityTextRoundTrip(MessageIdentity(m2));
  }

  // ---------------------------------------------------------------------
  // fetch_message_by_link
  // ---------------------------------------------------------------------

  /** What the client's `get_entity` and `get_messages` calls come back with. */
  datatype FetchReply =
    | Fetched(found: Option<Message>)   // `get_messages` returns a message or None
    | PrivateError                      // ChannelPrivateError
    | InvalidError                      // ChannelInvalidError
    | OtherError                        // any other exception

  /** The `FetchOutcome` record. */
  datatype FetchOutcome = FetchOutcome(
    message: Option<Message>,
    leaveAfter: bool,
    pendingPeer: Option<Peer>,
    messageId: Option<int>)

  /** `fetch_message_by_link` returns an outcome, or lets the `ValueError` of the parse escape. */
  datatype FetchResult = Returned(outcome: FetchOutcome) | RaisedValueError

  function FetchMessageByLink(link: string, reply: FetchReply): (r: FetchResult)
    ensures r.RaisedValueError? <==> ParseTelegramLink(link).PeerNotInteger?
    ensures r.Returned? ==> !r.outcome.leaveAfter
    ensures ParseTelegramLink(link).NoLink? ==> r == Returned(FetchOutcome(None, false, None, None))
    ensures ParseTelegramLink(link).Parsed? ==>
              && r.Returned?
              && r.outcome.messageId == Some(ParseTelegramLink(link).messageId)
              && r.outcome.message == (if reply.Fetched? then reply.found else None)
              && (r.outcome.pendingPeer.Some? <==> reply.PrivateError? || reply.InvalidError?)
              && (r.outcome.pendingPeer.Some? ==> r.outcome.pendingPeer.value == ParseTelegramLink(link).peer)
  {
    match ParseTelegramLink(link)
    case NoLink => Returned(FetchOutcome(None, false, None, None))
    case PeerNotInteger => RaisedValueError
    case Parsed(peer, id) =>
      match reply
      case Fetched(found) => Returned(FetchOutcome(found, false, None, Some(id)))
      case PrivateError => Returned(FetchOutcome(None, false, Some(peer), Some(id)))
      case InvalidError => Returned(FetchOutcome(None, false, Some(peer), Some(id)))
      case OtherError => Returned(FetchOutcome(None, false, None, Some(id)))
  }
}
