/** `Post.PostType`, `buildPostUrl` and the `urlHostPlain` rule from HNClient/Post.swift,
    kept apart from the post records because the search-result records
    (OctalClone/SearchResults.swift) use them too. */
module PostTypes {
  import opened Wrappers
  import opened Strings

  /** `Post.PostType`, a string-backed Codable enum. */
  datatype PostType = Story | Comment

  function PostTypeRawValue(t: PostType): string {
    match t
    case Story => "story"
    case Comment => "comment"
  }

  /** Decoding the enum from its JSON string: only the two raw values decode, anything else throws. */
  function DecodePostType(raw: string): (r: Option<PostType>)
    ensures r.Some? <==> raw == "story" || raw == "comment"
  {
    if raw == "story" then Some(Story)
    else if raw == "comment" then Some(Comment)
    else None
  }

  /** Decoding inverts the raw value, and the raw value is the only string that decodes to a case. */
  lemma DecodePostTypeInverts(t: PostType, raw: string)
    ensures DecodePostType(PostTypeRawValue(t)) == Some(t)
    ensures DecodePostType(raw) == Some(t) ==> raw == PostTypeRawValue(t)
  {
  }

  const HN_ITEM_URL_PREFIX: string := "https://news.ycombinator.com/item?id="

  /** `buildPostUrl(urlString, id)`: the given string, or the item page on news.ycombinator.com. */
  function BuildPostUrl(urlString: Option<string>, id: int): (r: string)
    ensures urlString.Some? ==> r == urlString.value
    ensures urlString.None? ==> HasPrefix(r, HN_ITEM_URL_PREFIX)
  {
    match urlString
    case Some(s) => s
    case None =>
      var r := HN_ITEM_URL_PREFIX + IntToString(id);
      assert r[..|HN_ITEM_URL_PREFIX|] == HN_ITEM_URL_PREFIX;
      r
  }

  /** The fallback URL names the item: the text after the prefix reads back as the id. */
  lemma FallbackUrlNamesItem(id: int)
    requires InInt64(id)
    ensures ParseInt(BuildPostUrl(None, id)[|HN_ITEM_URL_PREFIX|..]) == Some(id)
  {
    var r := BuildPostUrl(None, id);
    assert r[|HN_ITEM_URL_PREFIX|..] == IntToString(id);
    ParseIntOfIntToString(id);
  }

  const WWW_PREFIX: string := "www."

  /** `urlHostPlain` of both `PostPreview` and the search-result variants, given the host
      that `URL(string:)?.host()` yields: one leading "www." is dropped. */
  function UrlHostPlain(host: Option<string>): (r: Option<string>)
    ensures r.None? <==> host.None?
    ensures host.Some? && HasPrefix(host.value, WWW_PREFIX) ==> WWW_PREFIX + r.value == host.value
    ensures host.Some? && !HasPrefix(host.value, WWW_PREFIX) ==> r == host
  {
    match host
    case None => None
    case Some(h) =>
      if HasPrefix(h, WWW_PREFIX) then
        assert h == h[..|WWW_PREFIX|] + h[|WWW_PREFIX|..];
        Some(h[|WWW_PREFIX|..])
      else Some(h)
  }

  /** Exactly one "www." is stripped: a second one stays. */
  lemma UrlHostPlainStripsOnce(h: string)
    ensures UrlHostPlain(Some(WWW_PREFIX + h)) == Some(h)
    ensures UrlHostPlain(Some(WWW_PREFIX + WWW_PREFIX + h)) == Some(WWW_PREFIX + h)
  {
    assert (WWW_PREFIX + h)[..|WWW_PREFIX|] == WWW_PREFIX;
    assert (WWW_PREFIX + h)[|WWW_PREFIX|..] == h;
    assert WWW_PREFIX + WWW_PREFIX + h == WWW_PREFIX + (WWW_PREFIX + h);
    assert (WWW_PREFIX + (WWW_PREFIX + h))[..|WWW_PREFIX|] == WWW_PREFIX;
    assert (WWW_PREFIX + (WWW_PREFIX + h))[|WWW_PREFIX|..] == WWW_PREFIX + h;
  }
}
