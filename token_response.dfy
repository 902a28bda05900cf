/** Reading the body of a `request_token` or `access_token` response. The window splits
    the body on '&' and takes what follows "oauth_token=" and "oauth_token_secret=";
    values are kept verbatim, with no percent-decoding. */
module TokenResponse {
  import opened Basics
  import opened Text

  const TokenPrefix := "oauth_token="
  const SecretPrefix := "oauth_token_secret="

  /** A token and its secret. */
  datatype TokenPair = TokenPair(token: string, secret: string)

  /** What the scan leaves for `prefix`: the rest of the LAST part that starts with
      `prefix`, because a later part overwrites an earlier one; None when no part does. */
  function LastValue(parts: seq<string>, prefix: string): (v: Option<string>)
    ensures v.None? <==> forall i :: 0 <= i < |parts| ==> !(prefix <= parts[i])
    ensures v.Some? ==>
      exists i :: 0 <= i < |parts| && prefix <= parts[i] && v.value == parts[i][|prefix|..]
        && forall j :: i < j < |parts| ==> !(prefix <= parts[j])
    decreases |parts|
  {
    if parts == [] then None
    else if prefix <= parts[|parts| - 1] then Some(parts[|parts| - 1][|prefix|..])
    else LastValue(parts[..|parts| - 1], prefix)
  }

  /** The pair a response body carries, or None when either field is missing (the
      window then shows "Couldn't parse ... token" and stops). */
  function ParseTokenResponse(body: string): (r: Option<TokenPair>)
    ensures r.Some? <==>
      (exists i :: 0 <= i < |Split(body, '&')| && TokenPrefix <= Split(body, '&')[i]) &&
      (exists i :: 0 <= i < |Split(body, '&')| && SecretPrefix <= Split(body, '&')[i])
    ensures r.Some? ==> '&' !in r.value.token && '&' !in r.value.secret
  {
    var parts := Split(body, '&');
    var token := LastValue(parts, TokenPrefix);
    var secret := LastValue(parts, SecretPrefix);
    if token.None? || secret.None? then None else Some(TokenPair(token.value, secret.value))
  }

  /** The loop of the window's handler: scan the parts in order, overwriting the token
      and the secret whenever a part starts with their prefix, then give up unless both
      were seen. */
  method ReadTokenResponse(body: string) returns (pair: Option<TokenPair>)
    ensures pair == ParseTokenResponse(body)
  {
    var token: Option<string> := None;
    var secret: Option<string> := None;
    var parts := Split(body, '&');
    for k := 0 to |parts|
      invariant token == LastValue(parts[..k], TokenPrefix)
      invariant secret == LastValue(parts[..k], SecretPrefix)
    {
      var part := parts[k];
      assert parts[..k + 1][..k] == parts[..k];
      if TokenPrefix <= part {
        token := Some(part[|TokenPrefix|..]);
      }
      if SecretPrefix <= part {
        secret := Some(part[|SecretPrefix|..]);
      }
    }
    assert parts[..|parts|] == parts;
    if token.None? || secret.None? {
      pair := None;
    } else {
      pair := Some(TokenPair(token.value, secret.value));
    }
  }

  /** The body a server sends for a pair: "oauth_token=T&oauth_token_secret=S". */
  function FormatTokenResponse(p: TokenPair): string
  {
    TokenPrefix + p.token + "&" + SecretPrefix + p.secret
  }

  /** Neither prefix is a prefix of a part that starts with the other one. */
  lemma PrefixesExclusive(a: string, b: string)
    ensures !(TokenPrefix <= SecretPrefix + b)
    ensures !(SecretPrefix <= TokenPrefix + a)
  {
    assert (SecretPrefix + b)[11] == '_' != TokenPrefix[11];
    assert (TokenPrefix + a)[11] == '=' != SecretPrefix[11];
  }

  /** Splitting off a last separator-free piece. */
  lemma {:induction false} SplitBeforePiece(s: string, sep: char, x: string)
    requires sep !in x
    ensures Split(s + [sep] + x, sep) == Split(s, sep) + [x]
    decreases |s|
  {
    if s == [] {
      assert s + [sep] + x == [sep] + x;
      assert ([sep] + x)[1..] == x;
      SplitWithoutSeparator(x, sep);
    } else {
      assert (s + [sep] + x)[1..] == s[1..] + [sep] + x;
      SplitBeforePiece(s[1..], sep, x);
    }
  }

  /** A pair the server formats is read back unchanged, provided neither value holds
      '&' (the window does not decode escapes, so an '&' would cut the value short). */
  lemma ParseFormatted(p: TokenPair)
    requires '&' !in p.token && '&' !in p.secret
    ensures ParseTokenResponse(FormatTokenResponse(p)) == Some(p)
  {
    var a := TokenPrefix + p.token;
    var b := SecretPrefix + p.secret;
    assert '&' !in a && '&' !in b;
    assert FormatTokenResponse(p) == a + ['&'] + b;
    SplitAfterPiece(a, '&', b);
    SplitWithoutSeparator(b, '&');
    PrefixesExclusive(p.token, p.secret);
    var parts := Split(FormatTokenResponse(p), '&');
    assert parts == [a, b];
    assert parts[..1] == [a];
    assert TokenPrefix <= a && a[|TokenPrefix|..] == p.token;
    assert SecretPrefix <= b && b[|SecretPrefix|..] == p.secret;
    assert LastValue(parts, SecretPrefix) == Some(p.secret);
    assert LastValue([a], TokenPrefix) == Some(p.token);
    assert LastValue(parts, TokenPrefix) == Some(p.token);
  }

  /** The example exchange: "oauth_token=ABC&oauth_token_secret=XYZ" gives ABC and XYZ. */
  lemma ParseExample()
    ensures ParseTokenResponse("oauth_token=ABC&oauth_token_secret=XYZ")
      == Some(TokenPair("ABC", "XYZ"))
  {
    assert FormatTokenResponse(TokenPair("ABC", "XYZ")) == "oauth_token=ABC&oauth_token_secret=XYZ";
    ParseFormatted(TokenPair("ABC", "XYZ"));
  }

  /** Values are taken verbatim: percent-escapes stay as they are, and empty values
      are accepted. */
  lemma ParseKeepsEscapes()
    ensures ParseTokenResponse("oauth_token=a%2Fb&oauth_token_secret=") == Some(TokenPair("a%2Fb", ""))
  {
    assert FormatTokenResponse(TokenPair("a%2Fb", "")) == "oauth_token=a%2Fb&oauth_token_secret=";
    ParseFormatted(TokenPair("a%2Fb", ""));
  }

  /** One more part at the end: it is the value for `prefix` when it starts with
      `prefix`, and changes nothing when it does not. */
  lemma LastValueAppend(parts: seq<string>, x: string, prefix: string)
    ensures LastValue(parts + [x], prefix)
      == if prefix <= x then Some(x[|prefix|..]) else LastValue(parts, prefix)
  {
    assert (parts + [x])[..|parts|] == parts;
  }

  /** A later "oauth_token=" part overrides an earlier one; the secret is untouched. */
  lemma ParseLaterTokenWins(body: string, t: string)
    requires '&' !in t
    requires ParseTokenResponse(body).Some?
    ensures ParseTokenResponse(body + "&" + TokenPrefix + t)
      == Some(TokenPair(t, ParseTokenResponse(body).value.secret))
  {
    var x := TokenPrefix + t;
    assert '&' !in x;
    assert body + "&" + TokenPrefix + t == body + ['&'] + x;
    SplitBeforePiece(body, '&', x);
    PrefixesExclusive(t, "");
    var parts := Split(body, '&');
    LastValueAppend(parts, x, TokenPrefix);
    LastValueAppend(parts, x, SecretPrefix);
    assert TokenPrefix <= x && x[|TokenPrefix|..] == t;
  }

  /** Without an "oauth_token=" part the response is rejected, whatever else it holds. */
  lemma ParseNeedsToken(body: string)
    requires forall part :: part in Split(body, '&') ==> !(TokenPrefix <= part)
    ensures ParseTokenResponse(body) == None
  {
    var parts := Split(body, '&');
    forall i | 0 <= i < |parts|
      ensures !(TokenPrefix <= parts[i])
    {
      assert parts[i] in parts;
    }
  }
}
