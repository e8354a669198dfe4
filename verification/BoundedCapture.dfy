/** The bounded output capture of extensions/microsoft-foundry/cli.ts. */
module BoundedCapture {

  const MAX_CAPTURED_CHARS := 8_000

  function TotalLength(chunks: seq<string>): nat {
    if chunks == [] then 0 else |chunks[0]| + TotalLength(chunks[1..])
  }

  /** Drops chunks from the front until the rest fits. */
  function Fit(chunks: seq<string>): seq<string> {
    if chunks == [] || TotalLength(chunks) <= MAX_CAPTURED_CHARS then chunks else Fit(chunks[1..])
  }

  function NonEmpty(received: seq<string>): seq<string> {
    if received == [] then []
    else
      var last := received[|received| - 1];
      NonEmpty(received[..|received| - 1]) + if last == "" then [] else [last]
  }

  /** `kept` is the longest suffix of `all` that fits. */
  ghost predicate IsLongestFit(all: seq<string>, kept: seq<string>) {
    && (exists i :: 0 <= i <= |all| && kept == all[i..])
    && TotalLength(kept) <= MAX_CAPTURED_CHARS
    && forall i | 0 <= i <= |all| && TotalLength(all[i..]) <= MAX_CAPTURED_CHARS :: |all[i..]| <= |kept|
  }

  lemma {:induction false} TotalOfConcat(a: seq<string>, b: seq<string>)
    ensures TotalLength(a + b) == TotalLength(a) + TotalLength(b)
  {
    if a == [] {
      assert a + b == b;
    } else {
      assert (a + b)[1..] == a[1..] + b;
      TotalOfConcat(a[1..], b);
    }
  }

  lemma {:induction false} FitIsLongest(all: seq<string>)
    ensures IsLongestFit(all, Fit(all))
  {
    if all == [] || TotalLength(all) <= MAX_CAPTURED_CHARS {
      assert all[0..] == all;
      assert all == [] ==> TotalLength(all) == 0;
    } else {
      FitIsLongest(all[1..]);
      var i :| 0 <= i <= |all[1..]| && Fit(all[1..]) == all[1..][i..];
      assert all[1..][i..] == all[i + 1..];
      assert all[0..] == all;
      forall k | 0 < k <= |all| && TotalLength(all[k..]) <= MAX_CAPTURED_CHARS ensures |all[k..]| <= |Fit(all)| {
        assert all[1..][k - 1..] == all[k..];
      }
    }
  }

  /** What has been dropped stays dropped: fitting can be done chunk by chunk as they arrive. */
  lemma {:induction false} FitIncrementally(all: seq<string>, chunk: string)
    ensures Fit(Fit(all) + [chunk]) == Fit(all + [chunk])
  {
    if all != [] && TotalLength(all) > MAX_CAPTURED_CHARS {
      FitIncrementally(all[1..], chunk);
      TotalOfConcat(all, [chunk]);
      assert (all + [chunk])[1..] == all[1..] + [chunk];
    }
  }

  /** One captured stream, with everything it has received. */
  class Capture {
    var chunks: seq<string>
    var length: nat
    ghost var received: seq<string>

    ghost predicate Valid()
      reads this
    {
      chunks == Fit(NonEmpty(received)) && length == TotalLength(chunks)
    }

    constructor ()
      ensures Valid() && received == []
    {
      chunks, length, received := [], 0, [];
    }

    /** Keeps a non-empty chunk and makes room for it. */
    method Keep(text: string)
      requires length == TotalLength(chunks)
      modifies this`chunks, this`length
      ensures chunks == Fit(old(chunks) + [text]) && length == TotalLength(chunks)
    {
      ghost var all := chunks + [text];
      TotalOfConcat(chunks, [text]);
      assert [text][1..] == [];
      chunks := chunks + [text];
      length := length + |text|;
      while length > MAX_CAPTURED_CHARS && |chunks| > 0
        invariant length == TotalLength(chunks)
        invariant Fit(chunks) == Fit(all)
        decreases |chunks|
      {
        length := length - |chunks[0]|;
        chunks := chunks[1..];
      }
    }

    /** `appendBoundedChunk`: what is kept is the longest suffix of the non-empty chunks that fits. */
    method AppendBoundedChunk(text: string)
      requires Valid()
      modifies this
      ensures Valid() && received == old(received) + [text]
      ensures IsLongestFit(NonEmpty(received), chunks)
      ensures length == |Joined(chunks)| <= 8_000
    {
      NonEmptySnoc(received, text);
      FitIncrementally(NonEmpty(received), text);
      FitIsLongest(NonEmpty(received + [text]));
      JoinedLength(Fit(NonEmpty(received + [text])));
      if text != "" {
        Keep(text);
      }
      received := received + [text];
    }
  }

  lemma NonEmptySnoc(received: seq<string>, text: string)
    ensures NonEmpty(received + [text]) == NonEmpty(received) + if text == "" then [] else [text]
    ensures text == "" ==> NonEmpty(received + [text]) == NonEmpty(received)
  {
  }

  /** The chunks as one text, as the result of the command line reads them. */
  function Joined(chunks: seq<string>): string {
    if chunks == [] then "" else chunks[0] + Joined(chunks[1..])
  }

  lemma {:induction false} JoinedLength(chunks: seq<string>)
    ensures TotalLength(chunks) == |Joined(chunks)|
  {
    if chunks != [] {
      JoinedLength(chunks[1..]);
    }
  }

  /** A rest of the chunks that is longer than the one kept has more than 8000 characters. */
  lemma LongerRestsOverflow(all: seq<string>, i: nat)
    requires i <= |all| && |all[i..]| > |Fit(all)|
    ensures |Joined(all[i..])| > 8_000
  {
    FitIsLongest(all);
    JoinedLength(all[i..]);
  }
}
