/** The records the ingestion service moves around. `SocialMediaData` is the
    stored record; `TweetData` is the same record before a provider is
    stamped on it (`Omit<SocialMediaData, 'provider'>`). The adapter reads
    the fields of an untyped JSON object, so a field the upstream object
    lacks is carried as `undefined` (`None`). */
module SocialMediaData {
  import opened Common

  /** A raw upstream object with its string-valued properties. */
  type RawTweet = map<string, string>

  /** A record without its provider. */
  datatype TweetData = TweetData(
    id: Option<string>,
    text: Option<string>,
    authorId: Option<string>,
    createdAt: Option<string>,
    extraData: map<string, string>)

  /** A record with its provider. */
  datatype SocialMediaRecord = SocialMediaRecord(
    provider: string,
    id: Option<string>,
    text: Option<string>,
    authorId: Option<string>,
    createdAt: Option<string>,
    extraData: map<string, string>)

  /** `{...data, provider}`. */
  function WithProvider(data: TweetData, provider: string): SocialMediaRecord
  {
    SocialMediaRecord(provider, data.id, data.text, data.authorId, data.createdAt, data.extraData)
  }

  /** The record with its provider dropped. */
  function WithoutProvider(r: SocialMediaRecord): TweetData
  {
    TweetData(r.id, r.text, r.authorId, r.createdAt, r.extraData)
  }

  /** A value as a template literal renders it: `undefined` when absent,
      so an absent value and the text "undefined" render alike. */
  function TemplateText(v: Option<string>): (r: string)
    ensures v.None? ==> r == "undefined"
    ensures forall s :: v == Some(s) ==> r == s
    ensures r == "undefined" <==> v.None? || v == Some("undefined")
  {
    match v
    case Some(s) => s
    case None => "undefined"
  }
}
