/**
 Splitting a string at a delimiter (libs/Common/include/Common/StringTokenizer.hpp) and the method
 names the gateway accepts (libs/ServiceGateway/src/ServiceGateway.cpp, `processRequestMessage`).

 A token is what `std::getline` extracts; the list ends at the first extraction that finds nothing
 left in the stream.
 */
module StringTokenizers {
  import opened Options
  import opened Sequences

  /** The position of the first delimiter, or the length. */
  function Find(s: string, delimiter: char): (i: nat)
    ensures i <= |s| && delimiter !in s[..i]
    ensures i < |s| ==> s[i] == delimiter
  {
    if s == "" || s[0] == delimiter then 0
    else
      var i := Find(s[1..], delimiter);
      assert s[..i + 1] == [s[0]] + s[1..][..i];
      i + 1
  }

  function Split(s: string, delimiter: char): seq<string>
    decreases |s|
  {
    if s == "" then []
    else
      var i := Find(s, delimiter);
      [s[..i]] + (if i < |s| then Split(s[i + 1..], delimiter) else [])
  }

  /** The tokens, each followed by the delimiter. */
  function Terminated(tokens: seq<string>, delimiter: char): string
    decreases |tokens|
  {
    if tokens == [] then "" else tokens[0] + [delimiter] + Terminated(tokens[1..], delimiter)
  }

  ghost predicate DelimiterFree(tokens: seq<string>, delimiter: char) {
    forall i :: 0 <= i < |tokens| ==> delimiter !in tokens[i]
  }

  /** The input with a final delimiter, unless it is empty or has one. */
  function Completed(s: string, delimiter: char): string {
    if s == "" || s[|s| - 1] == delimiter then s else s + [delimiter]
  }

  /** No token contains the delimiter, and the tokens rebuild the input up to one final delimiter. */
  lemma {:induction false} SplitRebuilds(s: string, delimiter: char)
    ensures DelimiterFree(Split(s, delimiter), delimiter)
    ensures Terminated(Split(s, delimiter), delimiter) == Completed(s, delimiter)
    decreases |s|
  {
    if s != "" {
      var i := Find(s, delimiter);
      var head := s[..i];
      if i < |s| {
        var rest := s[i + 1..];
        SplitRebuilds(rest, delimiter);
        TerminatedFirst(head, Split(rest, delimiter), delimiter);
        assert s == head + [delimiter] + rest;
        CompletedAfterHead(head, rest, delimiter);
      } else {
        assert head == s && Split(s, delimiter) == [s] + [] == [s];
        OneToken(s, delimiter);
      }
    }
  }

  lemma OneToken(s: string, delimiter: char)
    requires s != "" && delimiter !in s
    ensures DelimiterFree([s], delimiter) && Terminated([s], delimiter) == Completed(s, delimiter)
  {
    assert [s][1..] == [] && s + [delimiter] + "" == s + [delimiter];
    assert s[|s| - 1] in s;
  }

  lemma TerminatedFirst(token: string, tokens: seq<string>, delimiter: char)
    ensures Terminated([token] + tokens, delimiter) == token + [delimiter] + Terminated(tokens, delimiter)
    ensures delimiter !in token && DelimiterFree(tokens, delimiter) ==> DelimiterFree([token] + tokens, delimiter)
  {
    assert ([token] + tokens)[1..] == tokens;
  }

  lemma CompletedAfterHead(head: string, rest: string, delimiter: char)
    ensures Completed(head + [delimiter] + rest, delimiter) == head + [delimiter] + Completed(rest, delimiter)
  {
    var s := head + [delimiter] + rest;
    if rest != "" {
      assert s[|s| - 1] == rest[|rest| - 1];
      assert s + [delimiter] == head + [delimiter] + (rest + [delimiter]);
    }
  }

  lemma {:induction false} FindIsFirst(token: string, rest: string, delimiter: char)
    requires delimiter !in token
    ensures Find(token + [delimiter] + rest, delimiter) == |token|
    decreases |token|
  {
    var s := token + [delimiter] + rest;
    if token != "" {
      assert token[0] in token;
      assert s[1..] == token[1..] + [delimiter] + rest;
      FindIsFirst(token[1..], rest, delimiter);
    }
  }

  /** Conversely, splitting delimiter-free tokens that were each terminated gives them back. */
  lemma {:induction false} SplitInvertsTerminated(tokens: seq<string>, delimiter: char)
    requires DelimiterFree(tokens, delimiter)
    ensures Split(Terminated(tokens, delimiter), delimiter) == tokens
    decreases |tokens|
  {
    if tokens != [] {
      var rest := Terminated(tokens[1..], delimiter);
      FindIsFirst(tokens[0], rest, delimiter);
      var s := tokens[0] + [delimiter] + rest;
      assert s[..|tokens[0]|] == tokens[0] && s[|tokens[0]| + 1..] == rest;
      SplitInvertsTerminated(tokens[1..], delimiter);
    }
  }

  /** A final delimiter makes no difference, except to the empty string. */
  lemma FinalDelimiterIsIgnored(s: string, delimiter: char)
    requires s != "" && s[|s| - 1] != delimiter
    ensures Split(s + [delimiter], delimiter) == Split(s, delimiter)
  {
    SplitRebuilds(s, delimiter);
    SplitInvertsTerminated(Split(s, delimiter), delimiter);
  }

  /** Two strings have the same tokens iff they are equal up to the final delimiter. */
  lemma SameTokensIff(s: string, t: string, delimiter: char)
    ensures Split(s, delimiter) == Split(t, delimiter) <==> Completed(s, delimiter) == Completed(t, delimiter)
  {
    SplitRebuilds(s, delimiter);
    SplitRebuilds(t, delimiter);
    SplitInvertsTerminated(Split(s, delimiter), delimiter);
    SplitInvertsTerminated(Split(t, delimiter), delimiter);
  }

  // ---------------------------------------------------------------------------------------------
  // The stream

  function TokenAt(text: string, start: nat, delimiter: char): string
    requires start <= |text|
  {
    text[start..][..Find(text[start..], delimiter)]
  }

  /** Where the stream stands after a token: behind the delimiter, or at the end. */
  function NextPosition(text: string, start: nat, delimiter: char): nat
    requires start <= |text|
  {
    var i := start + Find(text[start..], delimiter);
    if i < |text| then i + 1 else |text|
  }

  /** An input string stream, as far as `getline` uses it. */
  class IStringStream {
    const text: string
    var position: nat
    var failed: bool

    ghost predicate Valid()
      reads this
    {
      position <= |text|
    }

    constructor (text: string)
      ensures Valid() && this.text == text && position == 0 && !failed
    {
      this.text := text;
      position, failed := 0, false;
    }

    /** `operator>>` of a token: reads up to the delimiter, which it takes and drops, or to the end. */
    method GetLine(delimiter: char) returns (token: string)
      requires Valid()
      modifies this
      ensures Valid()
      ensures failed <==> old(failed) || old(position) == |text|
      ensures !failed ==>
                && token == TokenAt(text, old(position), delimiter)
                && position == NextPosition(text, old(position), delimiter)
                && delimiter !in token && old(position) + |token| <= |text|
                && token == text[old(position)..old(position) + |token|]
                && (if old(position) + |token| == |text| then position == |text|
                    else text[old(position) + |token|] == delimiter && position == old(position) + |token| + 1)
                && position > old(position)
      ensures failed ==> position == old(position)
    {
      token := "";
      if failed || position == |text| {
        failed := true;
        return;
      }
      ghost var rest := text[position..];
      var start := position;
      while position < |text| && text[position] != delimiter
        invariant start <= position <= |text|
        invariant token == text[start..position] && delimiter !in token
        invariant !failed
      {
        token := token + [text[position]];
        position := position + 1;
      }
      FindUnique(rest, position - start, delimiter);
      if position < |text| {
        position := position + 1;
      }
    }
  }

  lemma FindUnique(s: string, i: nat, delimiter: char)
    requires i <= |s| && delimiter !in s[..i] && (i < |s| ==> s[i] == delimiter)
    ensures Find(s, delimiter) == i
  {
    var j := Find(s, delimiter);
    assert forall k :: 0 <= k < i ==> s[k] == s[..i][k];
    assert forall k :: 0 <= k < j ==> s[k] == s[..j][k];
  }

  /** `split`: reads tokens from a stream on the string until one cannot be read. */
  method SplitString(text: string, delimiter: char) returns (tokens: seq<string>)
    ensures tokens == Split(text, delimiter)
  {
    var stream := new IStringStream(text);
    tokens := [];
    var token := stream.GetLine(delimiter);
    if stream.failed {
      return;
    }
    assert text[0..] == text;
    NextToken(text, 0, delimiter);
    while true
      invariant stream.Valid() && !stream.failed && stream.text == text && fresh(stream)
      invariant tokens + ([token] + Split(text[stream.position..], delimiter)) == Split(text, delimiter)
      decreases |text| - stream.position
    {
      ghost var before, start, last := tokens, stream.position, token;
      tokens := tokens + [token];
      token := stream.GetLine(delimiter);
      AppendIsAssociative(before, [last], Split(text[start..], delimiter));
      if stream.failed {
        assert text[start..] == "";
        return;
      }
      NextToken(text, start, delimiter);
    }
  }

  lemma NextToken(text: string, start: nat, delimiter: char)
    requires start < |text|
    ensures NextPosition(text, start, delimiter) <= |text|
    ensures Split(text[start..], delimiter)
         == [TokenAt(text, start, delimiter)] + Split(text[NextPosition(text, start, delimiter)..], delimiter)
  {
    var i := Find(text[start..], delimiter);
    if start + i < |text| {
      assert text[start..][i + 1..] == text[start + i + 1..];
    }
  }

  // ---------------------------------------------------------------------------------------------
  // The gateway

  /** The receiver address and the method id of a JSON-RPC method name, if the gateway accepts it. */
  method ReceiverAndMethod(name: string) returns (r: Option<(string, string)>)
    ensures r.Some? <==> exists a, m :: Accepted(name, a, m)
    ensures r.Some? ==> Accepted(name, r.value.0, r.value.1)
  {
    var tokens := SplitString(name, '.');
    AcceptedIff(name);
    if |tokens| == 2 && |tokens[0]| > 0 && |tokens[1]| > 0 {
      return Some((tokens[0], tokens[1]));
    }
    return None;
  }

  /** The name is a.m or a.m. with non-empty dot-free a and m. */
  ghost predicate Accepted(name: string, a: string, m: string) {
    && a != "" && m != "" && '.' !in a && '.' !in m
    && (name == a + "." + m || name == a + "." + m + ".")
  }

  lemma AcceptedTokens(name: string, a: string, m: string)
    requires Accepted(name, a, m)
    ensures Split(name, '.') == [a, m]
  {
    assert Terminated([m], '.') == m + ['.'] + "";
    assert [a, m][1..] == [m] && [m][1..] == [];
    assert Terminated([a, m], '.') == a + "." + m + ".";
    SplitInvertsTerminated([a, m], '.');
    if name == a + "." + m {
      assert name[|name| - 1] == m[|m| - 1] && m[|m| - 1] in m;
      FinalDelimiterIsIgnored(name, '.');
      assert name + ['.'] == a + "." + m + ".";
    }
  }

  /** Main result: the test the gateway makes on the tokens says exactly that. */
  lemma AcceptedIff(name: string)
    ensures var tokens := Split(name, '.');
            && (|tokens| == 2 && tokens[0] != "" && tokens[1] != "" ==> Accepted(name, tokens[0], tokens[1]))
            && (forall a, m :: Accepted(name, a, m) ==> tokens == [a, m])
  {
    var tokens := Split(name, '.');
    SplitRebuilds(name, '.');
    if |tokens| == 2 && tokens[0] != "" && tokens[1] != "" {
      var a, m := tokens[0], tokens[1];
      assert tokens[1..] == [m] && [m][1..] == [];
      assert Terminated([m], '.') == m + ['.'] + "" == m + ".";
      assert Completed(name, '.') == a + "." + (m + ".") == a + "." + m + ".";
      if Completed(name, '.') != name {
        assert name == Completed(name, '.')[..|name|];
        assert (a + "." + m + ".")[..|name|] == a + "." + m;
      }
    }
    forall a, m | Accepted(name, a, m) ensures tokens == [a, m] {
      AcceptedTokens(name, a, m);
    }
  }
}
