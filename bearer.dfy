/**
 * The `Authorization: Bearer <token>` header: how the client builds it and
 * the two ways the servers take the token out of it.
 */
module Bearer {
  import opened Wrappers
  import opened JsText

  const Prefix := "Bearer "

  /** The header value the client sends for a stored token. */
  function Header(token: string): string {
    Prefix + token
  }

  /**
   * The Express controllers' `req.header('Authorization')?.replace('Bearer ', '')`:
   * an absent header gives no token; otherwise the first occurrence of
   * "Bearer ", wherever it is, is removed.
   */
  function TokenByReplace(header: Option<string>): (token: Option<string>)
    ensures token.None? <==> header.None?
  {
    if header.None? then None else Some(ReplaceFirst(header.value, Prefix, ""))
  }

  /**
   * The Next.js controller's `authHeader?.startsWith('Bearer ')` then
   * `authHeader.substring(7)`: the prefix is required and everything after
   * it is the token (the prefix is seven ASCII characters, so counting
   * UTF-16 code units or characters gives the same split).
   */
  function TokenByPrefix(header: Option<string>): (token: Option<string>)
    ensures token.Some? <==> header.Some? && StartsWith(header.value, Prefix)
    ensures token.Some? ==> header.value == Header(token.value)
  {
    if header.Some? && StartsWith(header.value, Prefix) then Some(header.value[|Prefix|..]) else None
  }

  /** The Express servers recover the token the client put in the header. */
  lemma ReplaceRecoversToken(token: string)
    ensures TokenByReplace(Some(Header(token))) == Some(token)
  {
    ReplaceAtStart(Header(token), Prefix, "");
    assert Header(token)[|Prefix|..] == token;
    assert "" + token == token;
  }

  /** The Next.js server recovers the token the client put in the header. */
  lemma PrefixRecoversToken(token: string)
    ensures TokenByPrefix(Some(Header(token))) == Some(token)
  {
    assert Header(token)[..|Prefix|] == Prefix;
    assert Header(token)[|Prefix|..] == token;
  }

  /** A header that does not contain "Bearer " reaches verification unchanged on the Express servers. */
  lemma ReplaceKeepsOtherHeaders(header: string)
    requires forall i :: !OccursAt(header, Prefix, i)
    ensures TokenByReplace(Some(header)) == Some(header)
  {
    ReplaceAbsent(header, Prefix, "");
  }

  /** On a header that starts with "Bearer " the two extractions agree. */
  lemma ExtractionsAgreeOnBearer(header: string)
    requires StartsWith(header, Prefix)
    ensures TokenByReplace(Some(header)) == TokenByPrefix(Some(header))
  {
    ReplaceAtStart(header, Prefix, "");
    assert "" + header[|Prefix|..] == header[|Prefix|..];
  }

  /** Elsewhere they differ: "Bearer " in the middle is cut out by one and refused by the other. */
  lemma ExtractionsDifferInside()
    ensures TokenByReplace(Some("xBearer y")) == Some("xy")
    ensures TokenByPrefix(Some("xBearer y")) == None
  {
    var h := "xBearer y";
    assert OccursAt(h, Prefix, 1);
    assert h[0..|Prefix|][0] != Prefix[0];
    assert IndexOf(h, Prefix) == 1;
    assert h[..1] + "" + h[8..] == "xy";
  }
}
