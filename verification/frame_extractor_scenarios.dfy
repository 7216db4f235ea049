/** The behaviour the extractor's unit tests pin down, first for arbitrary
    bracket-free array bodies and then for the tests' own buffers. The JSON
    parser stays an oracle: each scenario says what it returns on the spans
    involved. */
module FrameExtractorScenarios {
  import opened Common
  import opened FrameExtractor

  /** Text with no bracket at all. */
  ghost predicate Flat(s: string)
  {
    forall k :: 0 <= k < |s| ==> s[k] != '[' && s[k] != ']'
  }

  /** A one-level array around a bracket-free body. */
  function Array(body: string): string
  {
    "[" + body + "]"
  }

  lemma {:induction false} CloseOverFlat(s: string, i: nat, e: nat)
    requires i <= e < |s| && s[e] == ']'
    requires forall k :: i <= k < e ==> s[k] != '[' && s[k] != ']'
    ensures CloseFrom(s, i, 1) == Some(e)
    decreases e - i
  {
    if i < e {
      CloseOverFlat(s, i + 1, e);
    }
  }

  lemma {:induction false} FlatNeverCloses(s: string, i: nat)
    requires i <= |s|
    requires forall k :: i <= k < |s| ==> s[k] != '[' && s[k] != ']'
    ensures CloseFrom(s, i, 1) == None
    decreases |s| - i
  {
    if i < |s| {
      FlatNeverCloses(s, i + 1);
    }
  }

  /** A buffer that starts with a one-level array: that array is next. */
  lemma ArrayAhead(body: string, t: string)
    requires Flat(body)
    ensures IndexOf(Array(body) + t, '[', 0) == Some(0)
    ensures CloseFrom(Array(body) + t, 1, 1) == Some(|body| + 1)
    ensures (Array(body) + t)[0..|body| + 2] == Array(body)
    ensures (Array(body) + t)[|body| + 2..] == t
  {
    var s := Array(body) + t;
    assert s[0] == '[';
    forall k | 1 <= k < |body| + 1 ensures s[k] != '[' && s[k] != ']' {
      assert s[k] == body[k - 1];
    }
    CloseOverFlat(s, 1, |body| + 1);
  }

  /** Extraction over a leading parsable array takes it and goes on after it. */
  lemma TakeArray<T>(body: string, t: string, parse: Parser<T>)
    requires Flat(body) && parse(Array(body)).Some?
    ensures Extract(Array(body) + t, parse).items == parse(Array(body)).value + Extract(t, parse).items
    ensures Extract(Array(body) + t, parse).rest == Extract(t, parse).rest
  {
    ArrayAhead(body, t);
    assert NextFrame(Array(body) + t, parse) == Some((0, |body| + 1));
    ExtractStep(Array(body) + t, parse);
  }

  lemma {:induction false} NoOpenHasNoIndex(t: string, from: nat)
    requires NoOpen(t)
    ensures IndexOf(t, '[', from) == None
    decreases |t| - from
  {
    if from < |t| {
      NoOpenHasNoIndex(t, from + 1);
    }
  }

  /** Text without '[' yields nothing and is kept whole. */
  lemma NoArrayStops<T>(t: string, parse: Parser<T>)
    requires NoOpen(t)
    ensures Extract(t, parse) == Extraction([], [], t)
  {
    NoOpenHasNoIndex(t, 0);
  }

  lemma FlatAppend(a: string, b: string)
    requires Flat(a) && Flat(b)
    ensures Flat(a + b)
  {
    forall k | 0 <= k < |a + b| ensures (a + b)[k] != '[' && (a + b)[k] != ']' {
      if k < |a| { assert (a + b)[k] == a[k]; }
      else { assert (a + b)[k] == b[k - |a|]; }
    }
  }

  lemma Regroup(head: string, more: string, t: string)
    ensures "[" + head + (more + "]" + t) == Array(head + more) + t
  {
  }

  /** An array whose closing bracket has not arrived yet stops extraction. */
  lemma UnclosedStops<T>(body: string, parse: Parser<T>)
    requires Flat(body)
    ensures Extract("[" + body, parse) == Extraction([], [], "[" + body)
  {
    var s := "[" + body;
    assert s[0] == '[';
    forall k | 1 <= k < |s| ensures s[k] != '[' && s[k] != ']' {
      assert s[k] == body[k - 1];
    }
    FlatNeverCloses(s, 1);
  }

  /** A complete array that does not parse stops extraction and stays. */
  lemma UnparsableStops<T>(body: string, t: string, parse: Parser<T>)
    requires Flat(body) && parse(Array(body)).None?
    ensures Extract(Array(body) + t, parse) == Extraction([], [], Array(body) + t)
  {
    ArrayAhead(body, t);
  }

  /** Two complete arrays then trailing text: the elements of both, in
      order, and the buffer becomes exactly the trailing text. */
  lemma TwoArraysThenText<T>(o1: string, o2: string, t: string, parse: Parser<T>)
    requires Flat(o1) && Flat(o2) && NoOpen(t)
    requires parse(Array(o1)).Some? && parse(Array(o2)).Some?
    ensures Extract(Array(o1) + Array(o2) + t, parse)
      == Extract(Array(o1) + (Array(o2) + t), parse)
    ensures Extract(Array(o1) + (Array(o2) + t), parse).items
      == parse(Array(o1)).value + parse(Array(o2)).value
    ensures Extract(Array(o1) + (Array(o2) + t), parse).rest == t
  {
    assert Array(o1) + Array(o2) + t == Array(o1) + (Array(o2) + t);
    TakeArray(o1, Array(o2) + t, parse);
    TakeArray(o2, t, parse);
    NoArrayStops(t, parse);
  }

  /** Three back-to-back arrays: all elements in order, empty buffer. */
  lemma ThreeArrays<T>(o1: string, o2: string, o3: string, parse: Parser<T>)
    requires Flat(o1) && Flat(o2) && Flat(o3)
    requires parse(Array(o1)).Some? && parse(Array(o2)).Some? && parse(Array(o3)).Some?
    ensures Extract(Array(o1) + (Array(o2) + (Array(o3) + "")), parse).items
      == parse(Array(o1)).value + parse(Array(o2)).value + parse(Array(o3)).value
    ensures Extract(Array(o1) + (Array(o2) + (Array(o3) + "")), parse).rest == ""
  {
    TakeArray(o1, Array(o2) + (Array(o3) + ""), parse);
    TakeArray(o2, Array(o3) + "", parse);
    TakeArray(o3, "", parse);
    NoArrayStops("", parse);
  }

  /** A parsed array, then one that does not parse, then a valid one: only
      the first array's elements; the buffer keeps the bad span and all
      after it, the later valid array included. */
  lemma MalformedStops<T>(o1: string, bad: string, o2: string, parse: Parser<T>)
    requires Flat(o1) && Flat(bad) && Flat(o2)
    requires parse(Array(o1)).Some? && parse(Array(bad)).None?
    ensures Extract(Array(o1) + (Array(bad) + Array(o2)), parse).items == parse(Array(o1)).value
    ensures Extract(Array(o1) + (Array(bad) + Array(o2)), parse).rest == Array(bad) + Array(o2)
  {
    TakeArray(o1, Array(bad) + Array(o2), parse);
    UnparsableStops(bad, Array(o2), parse);
  }

  /** An empty buffer yields nothing and stays empty. */
  lemma EmptyBuffer<T>(parse: Parser<T>)
    ensures Extract("", parse) == Extraction([], [], "")
  {
    NoArrayStops("", parse);
  }

  /** An incomplete array waits for more data; once the rest of it and some
      trailing text arrive, the next call yields all of its elements and the
      buffer becomes the trailing text. */
  lemma CompletedLater<T>(head: string, more: string, t: string, parse: Parser<T>)
    requires Flat(head) && Flat(more) && NoOpen(t)
    requires parse(Array(head + more)).Some?
    ensures Extract("[" + head, parse).items == []
    ensures Extract("[" + head, parse).rest == "[" + head
    ensures Extract(Extract("[" + head, parse).rest + (more + "]" + t), parse).items
      == parse(Array(head + more)).value
    ensures Extract(Extract("[" + head, parse).rest + (more + "]" + t), parse).rest == t
  {
    UnclosedStops(head, parse);
    Regroup(head, more, t);
    FlatAppend(head, more);
    TakeArray(head + more, t, parse);
    NoArrayStops(t, parse);
  }

  // The tests' own buffers.

  const Tweet1: string := "{\"id\":\"1\",\"text\":\"Tweet 1\"}"
  const Tweet2: string := "{\"id\":\"2\",\"text\":\"Tweet 2\"}"
  const Tweet3: string := "{\"id\":\"3\",\"text\":\"Tweet 3\"}"

  lemma TweetsAreFlat()
    ensures Flat(Tweet1) && Flat(Tweet2) && Flat(Tweet3) && Flat(Tweet1 + ",")
    ensures Flat("Malformed JSON") && NoOpen("Incomplete") && NoOpen("ExtraData")
  {
  }

  /** '[Tweet 1][Tweet 2]Incomplete' yields both tweets and leaves 'Incomplete'. */
  lemma TestTwoArraysThenIncomplete<T>(parse: Parser<T>, x1: T, x2: T)
    requires parse(Array(Tweet1)) == Some([x1]) && parse(Array(Tweet2)) == Some([x2])
    ensures Extract(Array(Tweet1) + Array(Tweet2) + "Incomplete", parse)
      == Extraction([x1, x2], Extract(Array(Tweet1) + Array(Tweet2) + "Incomplete", parse).frames, "Incomplete")
  {
    TweetsAreFlat();
    TwoArraysThenText(Tweet1, Tweet2, "Incomplete", parse);
  }

  /** '[Tweet 1' yields nothing and stays as it is. */
  lemma TestIncompleteArray<T>(parse: Parser<T>)
    ensures Extract("[" + Tweet1, parse) == Extraction([], [], "[" + Tweet1)
  {
    TweetsAreFlat();
    UnclosedStops(Tweet1, parse);
  }

  /** '[Tweet 1][Tweet 2][Tweet 3]' yields all three and leaves ''. */
  lemma TestThreeArrays<T>(parse: Parser<T>, x1: T, x2: T, x3: T)
    requires parse(Array(Tweet1)) == Some([x1]) && parse(Array(Tweet2)) == Some([x2])
    requires parse(Array(Tweet3)) == Some([x3])
    ensures Extract(Array(Tweet1) + Array(Tweet2) + Array(Tweet3), parse).items == [x1, x2, x3]
    ensures Extract(Array(Tweet1) + Array(Tweet2) + Array(Tweet3), parse).rest == ""
  {
    TweetsAreFlat();
    assert Array(Tweet1) + Array(Tweet2) + Array(Tweet3)
      == Array(Tweet1) + (Array(Tweet2) + (Array(Tweet3) + ""));
    ThreeArrays(Tweet1, Tweet2, Tweet3, parse);
  }

  /** '[Tweet 1][Malformed JSON][Tweet 2]' yields only Tweet 1 and keeps
      '[Malformed JSON][Tweet 2]'. */
  lemma TestMalformed<T>(parse: Parser<T>, x1: T)
    requires parse(Array(Tweet1)) == Some([x1]) && parse(Array("Malformed JSON")) == None
    ensures Extract(Array(Tweet1) + Array("Malformed JSON") + Array(Tweet2), parse).items == [x1]
    ensures Extract(Array(Tweet1) + Array("Malformed JSON") + Array(Tweet2), parse).rest
      == Array("Malformed JSON") + Array(Tweet2)
  {
    TweetsAreFlat();
    assert Array(Tweet1) + Array("Malformed JSON") + Array(Tweet2)
      == Array(Tweet1) + (Array("Malformed JSON") + Array(Tweet2));
    MalformedStops(Tweet1, "Malformed JSON", Tweet2, parse);
  }

  /** '[Tweet 1,' yields nothing and stays as it is. */
  lemma TestIncompleteWithComma<T>(parse: Parser<T>)
    ensures Extract("[" + Tweet1 + ",", parse) == Extraction([], [], "[" + Tweet1 + ",")
  {
    TweetsAreFlat();
    assert "[" + Tweet1 + "," == "[" + (Tweet1 + ",");
    UnclosedStops(Tweet1 + ",", parse);
  }

  /** '[Tweet 1,' waits; after 'Tweet 2]ExtraData' is appended the next call
      yields both tweets and leaves 'ExtraData'. */
  lemma TestMultipleCalls<T>(parse: Parser<T>, x1: T, x2: T)
    requires parse(Array(Tweet1 + "," + Tweet2)) == Some([x1, x2])
    ensures Extract("[" + Tweet1 + ",", parse).items == []
    ensures Extract("[" + Tweet1 + ",", parse).rest == "[" + Tweet1 + ","
    ensures Extract(Extract("[" + Tweet1 + ",", parse).rest + (Tweet2 + "]ExtraData"), parse).items == [x1, x2]
    ensures Extract(Extract("[" + Tweet1 + ",", parse).rest + (Tweet2 + "]ExtraData"), parse).rest == "ExtraData"
  {
    TweetsAreFlat();
    assert "[" + Tweet1 + "," == "[" + (Tweet1 + ",");
    assert Tweet2 + "]ExtraData" == Tweet2 + "]" + "ExtraData";
    CompletedLater(Tweet1 + ",", Tweet2, "ExtraData", parse);
  }
}
