/** The completion signal (run.js lines 105-127): the agent's standard
    output chunks are appended to one buffer, which is searched for a fixed
    tag after the agent exits. Standard error is echoed but never kept. */
module Signal {
  import opened JsStrings

  /** The literal the agent prints once every story passes. */
  const CompletionMarker: string := "<complete>ALL_STORIES_PASSED</complete>"

  /** `output += data.toString()` over every chunk, in arrival order. */
  function Concat(chunks: seq<string>): (out: string)
    ensures |chunks| == 0 ==> out == ""
  {
    if |chunks| == 0 then "" else Concat(chunks[..|chunks| - 1]) + chunks[|chunks| - 1]
  }

  lemma {:induction false} ConcatAppend(a: seq<string>, b: seq<string>)
    ensures Concat(a + b) == Concat(a) + Concat(b)
    decreases |b|
  {
    if |b| == 0 {
      assert a + b == a;
    } else {
      var front, last := b[..|b| - 1], b[|b| - 1];
      calc {
        Concat(a + b);
        { assert (a + b)[..|a + b| - 1] == a + front; }
        Concat(a + front) + last;
        { ConcatAppend(a, front); }
        (Concat(a) + Concat(front)) + last;
        Concat(a) + (Concat(front) + last);
      }
    }
  }

  /** `output.includes('<complete>ALL_STORIES_PASSED</complete>')`. */
  predicate HasCompletionMarker(stdout: seq<string>) {
    Includes(Concat(stdout), CompletionMarker)
  }

  /** A chunk that carries the whole tag is enough, whatever surrounds it. */
  lemma MarkerInOneChunk(stdout: seq<string>, k: int)
    requires 0 <= k < |stdout|
    requires Includes(stdout[k], CompletionMarker)
    ensures HasCompletionMarker(stdout)
  {
    var before := stdout[..k];
    var after := stdout[k + 1..];
    assert stdout == before + [stdout[k]] + after;
    ConcatAppend(before + [stdout[k]], after);
    ConcatAppend(before, [stdout[k]]);
    assert Concat([stdout[k]]) == stdout[k] by {
      assert [stdout[k]][..0] == [];
    }
    IncludesInContext(Concat(before), stdout[k], Concat(after), CompletionMarker);
  }

  /** Two chunks that split an occurrence of `p` between them still carry
      `p` once concatenated. */
  lemma SplitPatternFound(pre: string, p: string, j: int, post: string)
    requires 0 <= j <= |p|
    ensures Includes(Concat([pre + p[..j], p[j..] + post]), p)
  {
    var chunks := [pre + p[..j], p[j..] + post];
    assert Concat(chunks) == chunks[0] + chunks[1] by {
      assert chunks[..1] == [chunks[0]];
      assert [chunks[0]][..0] == [];
    }
    assert chunks[0] + chunks[1] == pre + p + post by {
      assert p[..j] + p[j..] == p;
    }
    assert OccursAt(p, p, 0) by {
      assert p[0..|p|] == p;
    }
    IncludesIff(p, p);
    IncludesInContext(pre, p, post, p);
  }

  /** Only the concatenation matters: the tag is found wherever the chunk
      boundary falls inside it. */
  lemma MarkerAcrossChunks(pre: string, j: int, post: string)
    requires 0 <= j <= |CompletionMarker|
    ensures HasCompletionMarker([pre + CompletionMarker[..j], CompletionMarker[j..] + post])
  {
    SplitPatternFound(pre, CompletionMarker, j, post);
  }

  /** The test is case-sensitive: an upper-case tag is not the marker. */
  lemma MarkerIsCaseSensitive()
    ensures !HasCompletionMarker(["<COMPLETE>ALL_STORIES_PASSED</COMPLETE>"])
  {
    var out := Concat(["<COMPLETE>ALL_STORIES_PASSED</COMPLETE>"]);
    assert out == "<COMPLETE>ALL_STORIES_PASSED</COMPLETE>" by {
      assert ["<COMPLETE>ALL_STORIES_PASSED</COMPLETE>"][..0] == [];
    }
    assert out[1] != CompletionMarker[1];
    forall i | OccursAt(out, CompletionMarker, i) ensures false {
    }
    IncludesIff(out, CompletionMarker);
  }
}
