/** The frame extractor of the stream consumer: it takes every complete
    top-level `[...]` array off the front of the text buffer fed by network
    chunks and keeps the rest for a later call.

    Scanning starts at the first '[' of the buffer and follows bracket depth
    ('[' opens, ']' closes; brackets inside JSON strings are counted like any
    other). The span from that '[' to the ']' that brings the depth back to
    zero is handed to the JSON parser, abstracted here as the oracle `parse`
    (`None` when the text is not valid JSON). A parsed span contributes its
    elements and extraction continues after it; text before a parsed span is
    dropped with it. No '[', no closing ']' or a span that does not parse
    stops extraction, and the buffer keeps everything from the current
    position on, the failed span included. */
module FrameExtractor {
  import opened Common

  type Parser<T> = string -> Option<seq<T>>

  /** `s.indexOf(c, from)`. */
  function IndexOf(s: string, c: char, from: nat): (r: Option<nat>)
    ensures r.Some? ==> from <= r.value < |s| && s[r.value] == c
    ensures r.Some? ==> forall k :: from <= k < r.value ==> s[k] != c
    ensures r.None? ==> forall k :: from <= k < |s| ==> s[k] != c
    decreases |s| - from
  {
    if from >= |s| then None
    else if s[from] == c then Some(from)
    else IndexOf(s, c, from + 1)
  }

  /** The depth change of one character. */
  function Delta(c: char): int
  {
    if c == '[' then 1 else if c == ']' then -1 else 0
  }

  /** Opening minus closing brackets in `s`: the reference definition of depth. */
  function Balance(s: string): int
  {
    if |s| == 0 then 0 else Delta(s[0]) + Balance(s[1..])
  }

  lemma BalanceUnfold(s: string, i: nat)
    requires i < |s|
    ensures forall k :: i < k <= |s| ==> Balance(s[i..k]) == Delta(s[i]) + Balance(s[i + 1..k])
  {
    forall k | i < k <= |s|
      ensures Balance(s[i..k]) == Delta(s[i]) + Balance(s[i + 1..k])
    {
      assert s[i..k][0] == s[i];
      assert s[i..k][1..] == s[i + 1..k];
    }
  }

  /** Scanning from position i with `depth` brackets open, the position of
      the ']' that brings the depth to zero, or `None` when the depth stays
      positive to the end of `s` (the array is still incomplete). */
  function CloseFrom(s: string, i: nat, depth: nat): (r: Option<nat>)
    requires depth > 0 && i <= |s|
    ensures r.Some? ==> i <= r.value < |s| && s[r.value] == ']'
    decreases |s| - i
  {
    if i == |s| then None
    else if s[i] == '[' then CloseFrom(s, i + 1, depth + 1)
    else if s[i] == ']' then (if depth == 1 then Some(i) else CloseFrom(s, i + 1, depth - 1))
    else CloseFrom(s, i + 1, depth)
  }

  /** The depth stays positive over every prefix `s[i..k]`, i <= k <= j. */
  ghost predicate OpenThrough(s: string, i: nat, j: nat, depth: int)
    requires i <= j <= |s|
  {
    forall k :: i <= k <= j ==> depth + Balance(s[i..k]) > 0
  }

  /** The scan agrees with the reference definition of depth: it stops at
      the first position where the running balance reaches zero, and reports
      an incomplete array exactly when the balance stays positive. */
  lemma {:induction false} CloseFromBalance(s: string, i: nat, depth: nat)
    requires depth > 0 && i <= |s|
    ensures CloseFrom(s, i, depth).Some? ==>
      var j := CloseFrom(s, i, depth).value;
      depth + Balance(s[i..j + 1]) == 0 && OpenThrough(s, i, j, depth)
    ensures CloseFrom(s, i, depth).None? ==> OpenThrough(s, i, |s|, depth)
    decreases |s| - i
  {
    assert s[i..i] == [];
    if i < |s| {
      BalanceUnfold(s, i);
      var d := depth + Delta(s[i]);
      if s[i] == ']' && depth == 1 {
        assert s[i + 1..i + 1] == [];
      } else {
        CloseFromBalance(s, i + 1, d);
        var r := CloseFrom(s, i, depth);
        assert r == CloseFrom(s, i + 1, d);
        var j := if r.Some? then r.value else |s|;
        forall k | i <= k <= j ensures depth + Balance(s[i..k]) > 0 {
          if k > i {
            assert d + Balance(s[i + 1..k]) > 0;
          }
        }
      }
    }
  }

  /** A complete top-level array: it opens with '[' and the scan from its
      second character closes it exactly at its last character. */
  ghost predicate IsSpan(span: string)
  {
    && |span| >= 2
    && span[0] == '['
    && CloseFrom(span, 1, 1) == Some(|span| - 1)
  }

  /** A complete array, by the reference definition of depth: its balance is
      zero and no proper prefix has balance zero. */
  lemma SpanIsBalanced(span: string)
    requires IsSpan(span)
    ensures Balance(span) == 0
    ensures forall k :: 0 < k < |span| ==> Balance(span[..k]) > 0
  {
    CloseFromBalance(span, 1, 1);
    BalanceUnfold(span, 0);
    assert span[0..|span|] == span;
    forall k | 0 < k < |span| ensures Balance(span[..k]) > 0 {
      assert span[..k] == span[0..k];
      assert 1 + Balance(span[1..k]) > 0;
    }
  }

  /** The scan over a slice finds the same close, shifted. */
  lemma {:induction false} CloseFromSlice(s: string, a: nat, b: nat, i: nat, depth: nat)
    requires depth > 0 && a <= i <= b <= |s|
    requires CloseFrom(s, i, depth).Some? && CloseFrom(s, i, depth).value < b
    ensures CloseFrom(s[a..b], i - a, depth) == Some(CloseFrom(s, i, depth).value - a)
    decreases |s| - i
  {
    assert s[a..b][i - a] == s[i];
    if s[i] == '[' {
      CloseFromSlice(s, a, b, i + 1, depth + 1);
    } else if s[i] == ']' {
      if depth != 1 {
        CloseFromSlice(s, a, b, i + 1, depth - 1);
      }
    } else {
      CloseFromSlice(s, a, b, i + 1, depth);
    }
  }

  /** Text with no '['. */
  ghost predicate NoOpen(s: string)
  {
    forall k :: 0 <= k < |s| ==> s[k] != '['
  }

  /** One consumed piece of the buffer: dropped text, then a parsed array. */
  datatype Frame = Frame(skipped: string, span: string)

  /** What one call yields: the parsed elements, the pieces consumed to get
      them, and the buffer left for the next call. */
  datatype Extraction<T> = Extraction(items: seq<T>, frames: seq<Frame>, rest: string)

  /** The text of the consumed pieces, in order. */
  function FramesText(frames: seq<Frame>): string
  {
    if |frames| == 0 then "" else frames[0].skipped + frames[0].span + FramesText(frames[1..])
  }

  /** The elements of the consumed arrays, in order. */
  function FramesItems<T>(frames: seq<Frame>, parse: Parser<T>): seq<T>
  {
    if |frames| == 0 then [] else parse(frames[0].span).GetOr([]) + FramesItems(frames[1..], parse)
  }

  /** Extraction cannot go on from `rest`: it has no '[', or its first '[' is
      never closed, or the first complete array does not parse. */
  ghost predicate Stuck<T>(rest: string, parse: Parser<T>)
  {
    match IndexOf(rest, '[', 0)
    case None => true
    case Some(i) =>
      match CloseFrom(rest, i + 1, 1)
      case None => true
      case Some(j) => parse(rest[i..j + 1]).None?
  }

  /** The span found by the scan is a complete top-level array. */
  lemma ScannedSpanIsSpan(s: string, i: nat, j: nat)
    requires i < |s| && s[i] == '['
    requires CloseFrom(s, i + 1, 1) == Some(j)
    ensures IsSpan(s[i..j + 1])
  {
    CloseFromSlice(s, i, j + 1, i + 1, 1);
  }

  /** `r` accounts for the consumed part of `buffer`: the buffer is the
      consumed pieces followed by `r.rest`; each piece is text without '['
      followed by a complete array that parses; and `r.items` are the
      elements of those arrays, in order. */
  ghost predicate Accounts<T>(buffer: string, r: Extraction<T>, parse: Parser<T>)
  {
    && buffer == FramesText(r.frames) + r.rest
    && (forall k :: 0 <= k < |r.frames| ==>
          && NoOpen(r.frames[k].skipped)
          && IsSpan(r.frames[k].span)
          && parse(r.frames[k].span).Some?)
    && r.items == FramesItems(r.frames, parse)
  }

  /** One more parsed array in front of an accounted remainder. */
  lemma AccountsCons<T>(buffer: string, i: nat, j: nat, parse: Parser<T>, tail: Extraction<T>)
    requires IndexOf(buffer, '[', 0) == Some(i)
    requires CloseFrom(buffer, i + 1, 1) == Some(j)
    requires parse(buffer[i..j + 1]).Some?
    requires Accounts(buffer[j + 1..], tail, parse)
    ensures Accounts(buffer,
      Extraction(parse(buffer[i..j + 1]).value + tail.items,
                 [Frame(buffer[..i], buffer[i..j + 1])] + tail.frames, tail.rest), parse)
  {
    var span := buffer[i..j + 1];
    var frame := Frame(buffer[..i], span);
    ConsText(buffer, i, j, tail.frames, tail.rest);
    ScannedSpanIsSpan(buffer, i, j);
    ConsFrames(frame, tail.frames, parse);
    ConsItems(frame, tail.frames, parse);
  }

  lemma ConsText(buffer: string, i: nat, j: nat, frames: seq<Frame>, rest: string)
    requires i <= j < |buffer|
    requires buffer[j + 1..] == FramesText(frames) + rest
    ensures buffer == FramesText([Frame(buffer[..i], buffer[i..j + 1])] + frames) + rest
  {
    var all := [Frame(buffer[..i], buffer[i..j + 1])] + frames;
    assert all[1..] == frames;
    assert FramesText(all) == buffer[..i] + buffer[i..j + 1] + FramesText(frames);
    calc {
      buffer;
      buffer[..i] + buffer[i..j + 1] + buffer[j + 1..];
      (buffer[..i] + buffer[i..j + 1] + FramesText(frames)) + rest;
    }
  }

  lemma ConsFrames<T>(frame: Frame, frames: seq<Frame>, parse: Parser<T>)
    requires NoOpen(frame.skipped) && IsSpan(frame.span) && parse(frame.span).Some?
    requires forall k :: 0 <= k < |frames| ==>
      NoOpen(frames[k].skipped) && IsSpan(frames[k].span) && parse(frames[k].span).Some?
    ensures var all := [frame] + frames;
      forall k :: 0 <= k < |all| ==>
        NoOpen(all[k].skipped) && IsSpan(all[k].span) && parse(all[k].span).Some?
  {
    var all := [frame] + frames;
    forall k | 0 <= k < |all|
      ensures NoOpen(all[k].skipped) && IsSpan(all[k].span) && parse(all[k].span).Some?
    {
      if k > 0 {
        assert all[k] == frames[k - 1];
      }
    }
  }

  lemma ConsItems<T>(frame: Frame, frames: seq<Frame>, parse: Parser<T>)
    requires parse(frame.span).Some?
    ensures FramesItems([frame] + frames, parse) == parse(frame.span).value + FramesItems(frames, parse)
  {
    assert ([frame] + frames)[1..] == frames;
  }

  /** Where the next array lies: the first '[' and the ']' that closes it,
      provided the text between them parses; `None` when extraction stops. */
  function NextFrame<T>(buffer: string, parse: Parser<T>): (r: Option<(nat, nat)>)
    ensures r.Some? ==> r.value.0 < r.value.1 < |buffer|
    ensures r.Some? ==> parse(buffer[r.value.0..r.value.1 + 1]).Some?
  {
    var open := IndexOf(buffer, '[', 0);
    if open.None? then None
    else
      var close := CloseFrom(buffer, open.value + 1, 1);
      if close.None? then None
      else if parse(buffer[open.value..close.value + 1]).None? then None
      else Some((open.value, close.value))
  }

  /** `extractCompleteArraysFromBuffer`: the items of one call and the
      buffer it leaves. */
  function Extract<T>(buffer: string, parse: Parser<T>): (r: Extraction<T>)
    ensures |r.rest| <= |buffer|
    decreases |buffer|
  {
    var next := NextFrame(buffer, parse);
    if next.None? then Extraction([], [], buffer)
    else
      var i, j := next.value.0, next.value.1;
      var tail := Extract(buffer[j + 1..], parse);
      var span := buffer[i..j + 1];
      Extraction(parse(span).value + tail.items, [Frame(buffer[..i], span)] + tail.frames, tail.rest)
  }

  /** Everything one call consumes is accounted for as complete, parsed
      arrays (the new buffer is a suffix of the old one, and the items are the
      parsed arrays' elements in order), and extraction stops only where it
      cannot go on. */
  lemma {:induction false} ExtractSound<T>(buffer: string, parse: Parser<T>)
    ensures Accounts(buffer, Extract(buffer, parse), parse)
    ensures Stuck(Extract(buffer, parse).rest, parse)
    decreases |buffer|
  {
    var next := NextFrame(buffer, parse);
    if next.None? {
      assert Extract(buffer, parse) == Extraction([], [], buffer);
      NextFrameNoneIsStuck(buffer, parse);
    } else {
      var i, j := next.value.0, next.value.1;
      var tail := Extract(buffer[j + 1..], parse);
      assert Extract(buffer, parse)
        == Extraction(parse(buffer[i..j + 1]).value + tail.items,
                      [Frame(buffer[..i], buffer[i..j + 1])] + tail.frames, tail.rest);
      ExtractSound(buffer[j + 1..], parse);
      AccountsCons(buffer, i, j, parse, tail);
    }
  }

  lemma NextFrameNoneIsStuck<T>(buffer: string, parse: Parser<T>)
    requires NextFrame(buffer, parse).None?
    ensures Stuck(buffer, parse)
  {
  }

  /** With no complete array consumed the buffer is left untouched: bytes of
      an incomplete frame are never dropped. */
  lemma NothingConsumedKeepsBuffer<T>(buffer: string, parse: Parser<T>)
    requires Extract(buffer, parse).frames == []
    ensures Extract(buffer, parse).rest == buffer
    ensures Extract(buffer, parse).items == []
  {
    ExtractSound(buffer, parse);
  }

  lemma {:induction false} IndexOfAppend(s: string, t: string, c: char, from: nat)
    requires IndexOf(s, c, from).Some?
    ensures IndexOf(s + t, c, from) == IndexOf(s, c, from)
    decreases |s| - from
  {
    if s[from] != c {
      IndexOfAppend(s, t, c, from + 1);
    }
  }

  lemma {:induction false} CloseFromAppend(s: string, t: string, i: nat, depth: nat)
    requires depth > 0 && i <= |s|
    requires CloseFrom(s, i, depth).Some?
    ensures CloseFrom(s + t, i, depth) == CloseFrom(s, i, depth)
    decreases |s| - i
  {
    assert (s + t)[i] == s[i];
    if s[i] == '[' {
      CloseFromAppend(s, t, i + 1, depth + 1);
    } else if s[i] == ']' {
      if depth != 1 {
        CloseFromAppend(s, t, i + 1, depth - 1);
      }
    } else {
      CloseFromAppend(s, t, i + 1, depth);
    }
  }

  lemma NextFrameAppend<T>(b: string, m: string, parse: Parser<T>)
    requires NextFrame(b, parse).Some?
    ensures NextFrame(b + m, parse) == NextFrame(b, parse)
  {
    var i, j := NextFrame(b, parse).value.0, NextFrame(b, parse).value.1;
    IndexOfAppend(b, m, '[', 0);
    CloseFromAppend(b, m, i + 1, 1);
    assert (b + m)[i..j + 1] == b[i..j + 1];
  }

  /** One step of `Extract` past the next array. */
  lemma ExtractStep<T>(buffer: string, parse: Parser<T>)
    requires NextFrame(buffer, parse).Some?
    ensures var i, j := NextFrame(buffer, parse).value.0, NextFrame(buffer, parse).value.1;
      && Extract(buffer, parse).items == parse(buffer[i..j + 1]).value + Extract(buffer[j + 1..], parse).items
      && Extract(buffer, parse).rest == Extract(buffer[j + 1..], parse).rest
  {
  }

  /** Appending a chunk to the buffer and extracting yields what extracting
      the buffer yields, followed by what extracting its remainder with the
      chunk yields: arrays completed earlier are neither lost nor repeated. */
  lemma {:induction false} ExtractAppend<T>(b: string, m: string, parse: Parser<T>)
    ensures Extract(b + m, parse).items
      == Extract(b, parse).items + Extract(Extract(b, parse).rest + m, parse).items
    ensures Extract(b + m, parse).rest == Extract(Extract(b, parse).rest + m, parse).rest
    decreases |b|
  {
    var next := NextFrame(b, parse);
    if next.None? {
      assert Extract(b, parse) == Extraction([], [], b);
    } else {
      var i, j := next.value.0, next.value.1;
      NextFrameAppend(b, m, parse);
      ExtractStep(b, parse);
      ExtractStep(b + m, parse);
      assert (b + m)[i..j + 1] == b[i..j + 1];
      assert (b + m)[j + 1..] == b[j + 1..] + m;
      ExtractAppend(b[j + 1..], m, parse);
      AppendAssoc(parse(b[i..j + 1]).value, Extract(b[j + 1..], parse).items,
        Extract(Extract(b[j + 1..], parse).rest + m, parse).items);
    }
  }

  lemma AppendAssoc<T>(x: seq<T>, y: seq<T>, z: seq<T>)
    ensures x + (y + z) == (x + y) + z
  {
  }

  /** Feeding chunks one by one: each call extracts from the previous
      remainder with the new chunk appended. Returns all items and the final
      buffer. */
  function Feed<T>(buffer: string, chunks: seq<string>, parse: Parser<T>): (r: (string, seq<T>))
    ensures |r.0| <= |buffer| + |Concat(chunks)|
    decreases |chunks|
  {
    if |chunks| == 0 then (buffer, [])
    else
      var e := Extract(buffer + chunks[0], parse);
      var next := Feed(e.rest, chunks[1..], parse);
      (next.0, e.items + next.1)
  }

  /** The text of the chunks, in order. */
  function Concat(chunks: seq<string>): string
  {
    if |chunks| == 0 then "" else chunks[0] + Concat(chunks[1..])
  }

  /** However the input is split into chunks, feeding them one by one yields
      exactly the items and the buffer of a single extraction over the whole
      input (starting from an already stuck buffer, such as the empty one). */
  lemma {:induction false} FeedIsBatch<T>(buffer: string, chunks: seq<string>, parse: Parser<T>)
    requires Extract(buffer, parse).frames == []
    ensures Feed(buffer, chunks, parse).1 == Extract(buffer + Concat(chunks), parse).items
    ensures Feed(buffer, chunks, parse).0 == Extract(buffer + Concat(chunks), parse).rest
    decreases |chunks|
  {
    if |chunks| == 0 {
      assert buffer + Concat(chunks) == buffer;
    } else {
      var c := chunks[0];
      var e := Extract(buffer + c, parse);
      var whole := buffer + Concat(chunks);
      assert whole == (buffer + c) + Concat(chunks[1..]);
      ExtractAppend(buffer + c, Concat(chunks[1..]), parse);
      ExtractIsStuck(buffer + c, parse);
      FeedIsBatch(e.rest, chunks[1..], parse);
    }
  }

  /** Extracting again from a remainder consumes nothing. */
  lemma ExtractIsStuck<T>(buffer: string, parse: Parser<T>)
    ensures Extract(Extract(buffer, parse).rest, parse).frames == []
  {
    var rest := Extract(buffer, parse).rest;
    ExtractSound(buffer, parse);
    assert Stuck(rest, parse);
  }
}
