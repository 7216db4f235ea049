/** The Twitter provider adapter: maps one raw upstream object to a record
    without a provider. */
module TwitterAdapter {
  import opened Common
  import opened SocialMediaData

  /** `toSocialMediaData`: id, text, author_id and created_at are copied as
      they are (absent stays absent), extraData is always empty, and no
      provider is set (the result type has no provider field). */
  function ToSocialMediaData(tweet: RawTweet): (r: TweetData)
    ensures "id" in tweet ==> r.id == Some(tweet["id"])
    ensures "id" !in tweet ==> r.id == None
    ensures "text" in tweet ==> r.text == Some(tweet["text"])
    ensures "text" !in tweet ==> r.text == None
    ensures "author_id" in tweet ==> r.authorId == Some(tweet["author_id"])
    ensures "author_id" !in tweet ==> r.authorId == None
    ensures "created_at" in tweet ==> r.createdAt == Some(tweet["created_at"])
    ensures "created_at" !in tweet ==> r.createdAt == None
    ensures r.extraData == map[]
  {
    TweetData(
      Lookup(tweet, "id"),
      Lookup(tweet, "text"),
      Lookup(tweet, "author_id"),
      Lookup(tweet, "created_at"),
      map[])
  }

  /** `tweets.map(toSocialMediaData)`. */
  function AdaptAll(tweets: seq<RawTweet>): (r: seq<TweetData>)
    ensures |r| == |tweets|
    ensures forall i :: 0 <= i < |tweets| ==> r[i] == ToSocialMediaData(tweets[i])
  {
    seq(|tweets|, i requires 0 <= i < |tweets| => ToSocialMediaData(tweets[i]))
  }

  /** Two raw objects that agree on the four copied fields adapt to the same
      record: every other property of the upstream object is dropped. */
  lemma AdapterIgnoresOtherFields(a: RawTweet, b: RawTweet)
    requires forall f :: f in {"id", "text", "author_id", "created_at"} ==>
      (f in a <==> f in b) && (f in a ==> a[f] == b[f])
    ensures ToSocialMediaData(a) == ToSocialMediaData(b)
  {
    assert "id" in {"id", "text", "author_id", "created_at"};
    assert "text" in {"id", "text", "author_id", "created_at"};
    assert "author_id" in {"id", "text", "author_id", "created_at"};
    assert "created_at" in {"id", "text", "author_id", "created_at"};
  }
}
