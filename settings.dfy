/**
 * The connection-settings tab of cus_rep4.py: the credentials read from the environment, shown
 * with the secrets masked. A variable that is not set reads as Python's `None`.
 */
module Settings {
  import opened Seqs
  import opened Platform

  /** The five values `os.getenv` returns; `None` for a variable that is not set. */
  datatype Credentials = Credentials(
    apiKey: Option<string>,
    apiSecret: Option<string>,
    accessToken: Option<string>,
    accessSecret: Option<string>,
    bearerToken: Option<string>)

  /** How an f-string renders an unmasked value: the text itself, or "None" for a missing one. */
  function Shown(v: Option<string>): (r: string)
    ensures v.Some? ==> r == v.value
    ensures v.None? ==> r == "None"
  {
    match v
    case Some(x) => x
    case None => "None"
  }

  /**
   * The masking expression `s[:keep]...` followed by five stars when `s` is non-empty: only the
   * first `keep` characters are shown, and the rest of the output depends only on whether `s` is empty.
   */
  function Mask(secret: string, keep: nat): (r: string)
    ensures |r| == Min(keep, |secret|) + 3 + (if secret == "" then 0 else 5)
    ensures r[..Min(keep, |secret|)] == secret[..Min(keep, |secret|)]
    ensures r[Min(keep, |secret|)..] == "..." + (if secret == "" then "" else "*****")
  {
    secret[..Min(keep, |secret|)] + "..." + (if secret != "" then "*****" else "")
  }

  /** Two secrets with the same first `keep` characters, both empty or both not, are masked alike. */
  lemma MaskHidesRest(a: string, b: string, keep: nat)
    requires a[..Min(keep, |a|)] == b[..Min(keep, |b|)]
    requires a == "" <==> b == ""
    ensures Mask(a, keep) == Mask(b, keep)
  {
    var ra, rb := Mask(a, keep), Mask(b, keep);
    assert ra == ra[..Min(keep, |a|)] + ra[Min(keep, |a|)..];
    assert rb == rb[..Min(keep, |b|)] + rb[Min(keep, |b|)..];
  }

  /** The five lines of the settings block, with a secret that is not set masked as if it were empty. */
  function SettingsLines(c: Credentials): seq<string> {
    [ "API_KEY = " + Shown(c.apiKey),
      "API_SECRET = " + Mask(Unset(c.apiSecret), 5),
      "ACCESS_TOKEN = " + Shown(c.accessToken),
      "ACCESS_SECRET = " + Mask(Unset(c.accessSecret), 5),
      "BEARER_TOKEN = " + Mask(Unset(c.bearerToken), 10) ]
  }

  /** A secret as the masking expression reads it once a missing value counts as empty. */
  function Unset(v: Option<string>): string {
    match v
    case Some(x) => x
    case None => ""
  }

  /** The text of the `st.code` block: a blank line, then each line followed by a line break. */
  function Block(lines: seq<string>): (r: string)
    ensures lines == [] ==> r == "\n"
    decreases |lines|
  {
    if lines == [] then "\n" else Block(lines[..|lines| - 1]) + lines[|lines| - 1] + "\n"
  }

  /** The settings block with a missing secret shown as "..." rather than failing. */
  function SettingsText(c: Credentials): string {
    Block(SettingsLines(c))
  }

  /**
   * The block exactly as cus_rep4.py builds it: slicing a secret that is `None` raises a
   * `TypeError`, so a missing secret fails the whole tab instead of being masked.
   */
  function SettingsAsWritten(c: Credentials): Fetch<string> {
    if c.apiSecret.None? || c.accessSecret.None? || c.bearerToken.None? then
      Raised("'NoneType' object is not subscriptable")
    else
      Got(Block(SettingsLines(c)))
  }

  /** With every secret set, the block as written and the corrected one show the same text. */
  lemma SettingsAgree(c: Credentials)
    requires c.apiSecret.Some? && c.accessSecret.Some? && c.bearerToken.Some?
    ensures SettingsAsWritten(c) == Got(SettingsText(c))
  {
  }

  /**
   * An unset `BEARER_TOKEN`, which the OAuth 1 user-context calls do not need, makes the tab fail
   * as written, while the corrected block shows "BEARER_TOKEN = ...".
   */
  lemma MissingSecretFails()
    ensures SettingsAsWritten(Credentials(Some("key"), Some("secret"), Some("token"), Some("secret"), None)).Raised?
    ensures SettingsLines(Credentials(Some("key"), Some("secret"), Some("token"), Some("secret"), None))[4] == "BEARER_TOKEN = ..."
  {
  }

  /**
   * The corrected block reveals nothing beyond the unmasked key and token and the first 5, 5 and
   * 10 characters of the secrets: credentials that agree on those show the same text.
   */
  lemma {:induction false} SettingsHideSecrets(c: Credentials, d: Credentials)
    requires c.apiKey == d.apiKey && c.accessToken == d.accessToken
    requires SameMasked(c.apiSecret, d.apiSecret, 5)
    requires SameMasked(c.accessSecret, d.accessSecret, 5)
    requires SameMasked(c.bearerToken, d.bearerToken, 10)
    ensures SettingsText(c) == SettingsText(d)
  {
    MaskHidesRest(Unset(c.apiSecret), Unset(d.apiSecret), 5);
    MaskHidesRest(Unset(c.accessSecret), Unset(d.accessSecret), 5);
    MaskHidesRest(Unset(c.bearerToken), Unset(d.bearerToken), 10);
    assert SettingsLines(c) == SettingsLines(d);
  }

  /** Two secrets agree on what masking shows of them. */
  predicate SameMasked(a: Option<string>, b: Option<string>, keep: nat) {
    var x, y := Unset(a), Unset(b);
    x[..Min(keep, |x|)] == y[..Min(keep, |y|)] && (x == "" <==> y == "")
  }
}
