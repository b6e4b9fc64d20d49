/** The regional source manifest every EDEKA candidate is bound to, and its validation. */
module EdekaManifest {
  import opened Foundations
  import opened Formats

  const MANIFEST_STRATEGY: string := "edeka_regional_source_manifest_v1"
  const PUBLIC_MARKET: string := "071897"
  const SOURCE_MARKET: string := "587881"
  const SCOPE: string := "family_primary_edeka"
  const MAX_WINDOW_DAYS: int := 31

  /** The writes a payload could claim to be authorised for. */
  datatype Flags = Flags(database: bool, review: bool, approval: bool, publication: bool, production: bool)

  const NO_WRITES: Flags := Flags(false, false, false, false, false)

  /** A URL taken apart; an absent part is empty. */
  datatype Url = Url(scheme: string, host: string, username: string, password: string, fragment: string)

  datatype Manifest = Manifest(schemaVersion: int, strategy: string, retailer: string, publicMarket: string,
                               sourceMarket: string, scope: string, campaignId: string, validFrom: string,
                               validTo: string, sourceUrl: Url, sourceSha: string, manifestSha: string,
                               parser: string, state: string, fallback: bool, ambiguousRoute: string, flags: Flags)

  /** The campaign, source, manifest and parser a candidate is bound to. */
  datatype Binding = Binding(campaign: string, sourceSha: string, manifestSha: string, parser: string)

  function BindingOf(m: Manifest): Binding {
    Binding(m.campaignId, m.sourceSha, m.manifestSha, m.parser)
  }

  /** At most 31 days, not inverted; `day` reads an ISO date as a day number. */
  predicate WindowOk(from: string, to: string, day: string -> Option<int>) {
    day(from).Some? && day(to).Some? && 0 <= day(to).value - day(from).value <= MAX_WINDOW_DAYS
  }

  predicate OfficialUrl(u: Url) {
    && u.scheme == "https" && u.host != ""
    && (Lower(u.host) == "edeka.de" || EndsWith(Lower(u.host), ".edeka.de"))
    && u.username == "" && u.password == "" && u.fragment == ""
  }

  predicate IsAlphanumeric(c: char) {
    IsLowerOrDigit(c) || 'A' <= c <= 'Z'
  }

  /** 3 to 128 characters: a letter or digit, then those and `._-`. */
  predicate ParserOk(s: string) {
    3 <= |s| <= 128 && IsAlphanumeric(s[0]) && forall i | 0 <= i < |s| :: IsAlphanumeric(s[i]) || s[i] in "._-"
  }

  predicate StateOk(state: string) {
    ShadowReady(state)
    || state == "not_published_yet" || state == "source_unavailable" || state == "evidence_mismatch"
    || state == "parser_failed"
  }

  predicate ShadowReady(state: string) {
    state == "available" || state == "review_pending"
  }

  predicate ManifestOk(m: Manifest, day: string -> Option<int>) {
    && m.schemaVersion == 1 && m.strategy == MANIFEST_STRATEGY && m.retailer == "edeka"
    && m.publicMarket == PUBLIC_MARKET && m.sourceMarket == SOURCE_MARKET && m.scope == SCOPE
    && NonBlank(m.campaignId)
    && WindowOk(m.validFrom, m.validTo, day)
    && OfficialUrl(m.sourceUrl)
    && IsSha256(m.sourceSha) && IsSha256(m.manifestSha) && ParserOk(m.parser)
    && StateOk(m.state) && !m.fallback && m.ambiguousRoute == "review_required"
    && m.flags == NO_WRITES
  }
}
