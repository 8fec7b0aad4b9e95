/** Names joined by dots, as both the generator's parser and the option files have them. */
module DottedNames {
  /** Python's `split('.')`: one more chunk than there are dots, empty ones included. */
  function SplitDot(s: string): (chunks: seq<string>)
    ensures chunks != []
    decreases |s|
  {
    if s == "" then [""]
    else
      var n := |s| - 1;
      var before := SplitDot(s[..n]);
      if s[n] == '.' then before + [""]
      else before[|before| - 1 := before[|before| - 1] + [s[n]]]
  }

  function JoinDot(chunks: seq<string>): string
    requires chunks != []
    decreases |chunks|
  {
    if |chunks| == 1 then chunks[0] else JoinDot(chunks[..|chunks| - 1]) + "." + chunks[|chunks| - 1]
  }

  lemma JoinOneMore(chunks: seq<string>, chunk: string)
    requires chunks != []
    ensures JoinDot(chunks + [chunk]) == JoinDot(chunks) + "." + chunk
  {
    assert (chunks + [chunk])[..|chunks|] == chunks;
  }

  lemma JoinLongerLast(chunks: seq<string>, t: string)
    requires chunks != []
    ensures var k := |chunks| - 1;
            JoinDot(chunks[k := chunks[k] + t]) == JoinDot(chunks) + t
  {
    var k := |chunks| - 1;
    var longer := chunks[k := chunks[k] + t];
    if k > 0 {
      assert longer[..k] == chunks[..k];
      assert JoinDot(chunks[..k]) + "." + (chunks[k] + t) == JoinDot(chunks[..k]) + "." + chunks[k] + t;
    }
  }

  /** The chunks are dot-free and rebuild the name. */
  lemma {:induction false} SplitRebuilds(s: string)
    ensures JoinDot(SplitDot(s)) == s
    ensures forall i :: 0 <= i < |SplitDot(s)| ==> '.' !in SplitDot(s)[i]
    decreases |s|
  {
    if s != "" {
      var n := |s| - 1;
      var before := SplitDot(s[..n]);
      SplitRebuilds(s[..n]);
      assert s == s[..n] + [s[n]];
      if s[n] == '.' {
        JoinOneMore(before, "");
        assert s[..n] + "." + "" == s;
      } else {
        JoinLongerLast(before, [s[n]]);
      }
    }
  }

  /** Put together from the front, the names are joined the same way. */
  lemma {:induction false} JoinFromTheFront(names: seq<string>)
    requires |names| > 1
    ensures JoinDot(names) == names[0] + "." + JoinDot(names[1..])
    decreases |names|
  {
    var n := |names| - 1;
    if n > 1 {
      JoinFromTheFront(names[..n]);
      assert names[..n][1..] == names[1..][..n - 1];
    } else {
      assert names[1..] == [names[1]] && names[..1] == [names[0]];
    }
  }

  lemma {:induction false} SplitAppend(s: string, t: string)
    requires '.' !in t
    ensures var chunks := SplitDot(s);
            SplitDot(s + t) == chunks[|chunks| - 1 := chunks[|chunks| - 1] + t]
    decreases |t|
  {
    if t == "" {
      assert s + t == s;
      assert SplitDot(s)[|SplitDot(s)| - 1] + "" == SplitDot(s)[|SplitDot(s)| - 1];
    } else {
      var n := |t| - 1;
      var chunks := SplitDot(s);
      assert t[n] in t;
      SplitAppend(s, t[..n]);
      assert (s + t)[..|s + t| - 1] == s + t[..n];
      assert chunks[|chunks| - 1] + t[..n] + [t[n]] == chunks[|chunks| - 1] + t;
    }
  }

  lemma SplitAfterDot(s: string)
    ensures SplitDot(s + ".") == SplitDot(s) + [""]
  {
    assert (s + ".")[..|s|] == s;
  }

  lemma LastChunk(chunks: seq<string>)
    requires chunks != []
    ensures var n := |chunks| - 1;
            (chunks[..n] + [""])[n := "" + chunks[n]] == chunks
  {
    assert "" + chunks[|chunks| - 1] == chunks[|chunks| - 1];
  }

  /** Splitting undoes joining. */
  lemma {:induction false} SplitInvertsJoin(chunks: seq<string>)
    requires chunks != [] && forall i :: 0 <= i < |chunks| ==> '.' !in chunks[i]
    ensures SplitDot(JoinDot(chunks)) == chunks
    decreases |chunks|
  {
    var n := |chunks| - 1;
    if n == 0 {
      SplitAppend("", chunks[0]);
      assert "" + chunks[0] == chunks[0];
    } else {
      var front := JoinDot(chunks[..n]);
      SplitInvertsJoin(chunks[..n]);
      SplitAfterDot(front);
      SplitAppend(front + ".", chunks[n]);
      LastChunk(chunks);
    }
  }
}
