/** The reader loop of the support chat (components/SupportChat.tsx): an answer arrives in
    chunks, its text and its metadata parted by one separator character. */
module StreamSplit {
  import opened Wrappers
  import opened Text

  const SEPARATOR: char := 30 as char

  /** What a stream means: text up to the first separator, metadata after it, later
      separators included. */
  ghost predicate Parted(whole: string, text: string, meta: Option<string>) {
    match meta
    case None => SEPARATOR !in whole && text == whole
    case Some(json) => SEPARATOR !in text && whole == text + [SEPARATOR] + json
  }

  lemma {:induction false} ConcatSnoc(chunks: seq<string>, chunk: string)
    ensures Concat(chunks + [chunk]) == Concat(chunks) + chunk
  {
    if chunks == [] {
      assert [chunk][1..] == [];
    } else {
      ConcatSnoc(chunks[1..], chunk);
      assert (chunks + [chunk])[1..] == chunks[1..] + [chunk];
    }
  }

  lemma MoreMeta(whole: string, text: string, json: string, chunk: string)
    requires Parted(whole, text, Some(json))
    ensures Parted(whole + chunk, text, Some(json + chunk))
  {
    assert whole + chunk == text + [SEPARATOR] + (json + chunk);
  }

  lemma SeparatorFound(whole: string, chunk: string, sep: nat)
    requires Parted(whole, whole, None) && sep < |chunk| && chunk[sep] == SEPARATOR && SEPARATOR !in chunk[..sep]
    ensures Parted(whole + chunk, whole + chunk[..sep], Some(chunk[sep + 1..]))
  {
    assert chunk == chunk[..sep] + [SEPARATOR] + chunk[sep + 1..];
  }

  /** The texts put on screen: each extends the one before, and the last is the text so far. */
  ghost predicate Typed(shown: seq<string>, text: string) {
    && (forall i, j | 0 <= i < j < |shown| :: shown[i] <= shown[j])
    && (forall i | 0 <= i < |shown| :: shown[i] <= text)
    && (if shown == [] then text == "" else shown[|shown| - 1] == text)
  }

  lemma TypeMore(shown: seq<string>, text: string, more: string)
    requires Typed(shown, text)
    ensures Typed(shown + [text + more], text + more)
  {
    forall i | 0 <= i < |shown| ensures shown[i] <= text + more {
      assert shown[i] <= text;
    }
  }

  /** Reads the stream to its end. `shown` is every text put on screen on the way. */
  method ReadReply(chunks: seq<string>) returns (textSoFar: string, meta: Option<string>, shown: seq<string>)
    ensures Parted(Concat(chunks), textSoFar, meta)
    ensures Typed(shown, textSoFar)
  {
    textSoFar, shown := "", [];
    var metaJson, metaSeen := "", false;
    for i := 0 to |chunks|
      invariant Parted(Concat(chunks[..i]), textSoFar, if metaSeen then Some(metaJson) else None)
      invariant Typed(shown, textSoFar)
    {
      var chunk := chunks[i];
      assert chunks[..i + 1] == chunks[..i] + [chunk];
      ConcatSnoc(chunks[..i], chunk);
      if metaSeen {
        MoreMeta(Concat(chunks[..i]), textSoFar, metaJson, chunk);
        metaJson := metaJson + chunk;
        continue;
      }
      var sep := IndexOf(chunk, SEPARATOR);
      if sep == -1 {
        TypeMore(shown, textSoFar, chunk);
        textSoFar := textSoFar + chunk;
        shown := shown + [textSoFar];
      } else {
        SeparatorFound(textSoFar, chunk, sep);
        TypeMore(shown, textSoFar, chunk[..sep]);
        textSoFar := textSoFar + chunk[..sep];
        shown := shown + [textSoFar];
        metaJson := chunk[sep + 1..];
        metaSeen := true;
      }
    }
    assert chunks[..|chunks|] == chunks;
    meta := if metaSeen then Some(metaJson) else None;
  }

  /** A stream parts in one way only, so the reading cannot depend on where it was cut. */
  lemma PartedIsUnique(whole: string, text1: string, meta1: Option<string>, text2: string, meta2: Option<string>)
    requires Parted(whole, text1, meta1) && Parted(whole, text2, meta2)
    ensures text1 == text2 && meta1 == meta2
  {
    if meta1.Some? { IndexOfAfter(text1, SEPARATOR, meta1.value); }
    if meta2.Some? { IndexOfAfter(text2, SEPARATOR, meta2.value); }
    if meta1.Some? && meta2.Some? {
      assert text1 == whole[..|text1|] && text2 == whole[..|text2|];
      assert meta1.value == whole[|text1| + 1..] && meta2.value == whole[|text2| + 1..];
    }
  }
}
