/** `pump_stream` of src/build_engine/executor/stream.py: from decoded reads to published log frames. */
module LogPump {
  import opened LogFrames
  import opened Redaction

  // The text that the frames should carry: each read redacted on its own.
  function RedactedText(inputs: seq<string>, secrets: seq<string>): string
    requires "" !in secrets
  {
    if inputs == [] then "" else ReplaceAll(inputs[0], secrets) + RedactedText(inputs[1..], secrets)
  }

  lemma {:induction false} RedactedAppend(inputs: seq<string>, last: string, secrets: seq<string>)
    requires "" !in secrets
    ensures RedactedText(inputs + [last], secrets) == RedactedText(inputs, secrets) + ReplaceAll(last, secrets)
  {
    if inputs == [] {
      assert inputs + [last] == [last];
      assert RedactedText([last], secrets) == ReplaceAll(last, secrets) + RedactedText([], secrets);
    } else {
      RedactedAppend(inputs[1..], last, secrets);
      assert (inputs + [last])[1..] == inputs[1..] + [last];
    }
  }

  lemma {:induction false} ConcatSplit(left: seq<string>, right: seq<string>)
    ensures Concat(left + right) == Concat(left) + Concat(right)
  {
    if left == [] {
      assert left + right == right;
    } else {
      ConcatSplit(left[1..], right);
      assert (left + right)[1..] == left[1..] + right;
      Regrouped(left[0], Concat(left[1..]), Concat(right));
    }
  }

  lemma Regrouped(first: string, middle: string, last: string)
    ensures first + (middle + last) == (first + middle) + last
  {
  }

  lemma {:induction false} PieceOf(pieces: seq<string>, piece: string, s: string)
    requires piece in pieces && Contains(piece, s)
    ensures Contains(Concat(pieces), s)
  {
    var whole := Concat(pieces);
    if pieces[0] == piece {
      var i: nat :| OccursAt(piece, s, i);
      assert whole[i..i + |s|] == piece[i..i + |s|];
      assert OccursAt(whole, s, i);
    } else {
      PieceOf(pieces[1..], piece, s);
      var i: nat :| OccursAt(Concat(pieces[1..]), s, i);
      assert whole[i + |pieces[0]|..i + |pieces[0]| + |s|] == Concat(pieces[1..])[i..i + |s|];
      assert OccursAt(whole, s, i + |pieces[0]|);
    }
  }

  // Every frame passes the log check and holds no secret that cannot overlap the token.
  ghost predicate Publishable(frames: seq<string>, secrets: seq<string>) {
    forall f | f in frames :: Fits(f) && forall s | s in secrets && !CanOverlapToken(s) :: !Contains(f, s)
  }

  // Cutting a clean text gives clean pieces.
  lemma ChunksArePublishable(text: string, chunks: seq<string>, secrets: seq<string>)
    requires Concat(chunks) == text && forall c | c in chunks :: Fits(c)
    requires forall s | s in secrets && !CanOverlapToken(s) :: !Contains(text, s)
    ensures Publishable(chunks, secrets)
  {
    forall f, s | f in chunks && s in secrets && !CanOverlapToken(s)
      ensures !Contains(f, s)
    {
      if Contains(f, s) { PieceOf(chunks, f, s); }
    }
  }

  lemma OneRead(inputs: seq<string>, i: nat, secrets: seq<string>, frames: seq<string>, chunks: seq<string>)
    requires "" !in secrets && i < |inputs| && Concat(frames) == RedactedText(inputs[..i], secrets)
    requires Concat(chunks) == ReplaceAll(inputs[i], secrets)
    ensures Concat(frames + chunks) == RedactedText(inputs[..i + 1], secrets)
  {
    ConcatSplit(frames, chunks);
    RedactedAppend(inputs[..i], inputs[i], secrets);
    assert inputs[..i + 1] == inputs[..i] + [inputs[i]];
  }

  lemma BothPublishable(left: seq<string>, right: seq<string>, secrets: seq<string>)
    requires Publishable(left, secrets) && Publishable(right, secrets)
    ensures Publishable(left + right, secrets)
  {
    forall f | f in left + right
      ensures f in left || f in right
    {
    }
  }

  // _frame_chunks(redactor.redact(text))
  method FramesOfRead(input: string, redactor: SecretRedactor) returns (chunks: seq<string>)
    requires redactor.Valid()
    ensures Concat(chunks) == ReplaceAll(input, redactor.secrets)
    ensures Publishable(chunks, redactor.secrets)
  {
    var text := redactor.Redact(input);
    chunks := FrameChunks(text);
    ChunksArePublishable(text, chunks, redactor.secrets);
  }

  method PumpStream(inputs: seq<string>, redactor: SecretRedactor) returns (frames: seq<string>)
    requires redactor.Valid()
    ensures Concat(frames) == RedactedText(inputs, redactor.secrets)
    ensures Publishable(frames, redactor.secrets)
  {
    frames := [];
    for i := 0 to |inputs|
      invariant Concat(frames) == RedactedText(inputs[..i], redactor.secrets)
      invariant Publishable(frames, redactor.secrets)
    {
      var chunks := FramesOfRead(inputs[i], redactor);
      OneRead(inputs, i, redactor.secrets, frames, chunks);
      BothPublishable(frames, chunks, redactor.secrets);
      frames := frames + chunks;
    }
    assert inputs[..|inputs|] == inputs;
  }
}
