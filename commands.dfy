/** The command syntax of a message body: `/cmd1/cmd2 free text`. The leading group of
    `/word` commands must be followed by white space or by the end of the body. */
module Commands {
  import opened Text

  /** The actions, the residual message text, and the body as received. */
  datatype Parsed = Parsed(actions: seq<string>, text: string, raw: string)

  /** A command token: one or more word characters. */
  predicate IsWord(t: string) {
    t != [] && forall k :: 0 <= k < |t| ==> IsWordChar(t[k])
  }

  /** The command group `/t1/t2...` spelled out from its tokens. */
  function CommandGroup(tokens: seq<string>): string {
    if tokens == [] then "" else ['/'] + tokens[0] + CommandGroup(tokens[1..])
  }

  /** The end of the run of word characters that starts at i. */
  function WordEnd(s: string, i: nat): (j: nat)
    requires i <= |s|
    ensures i <= j <= |s|
    decreases |s| - i
  {
    if i < |s| && IsWordChar(s[i]) then WordEnd(s, i + 1) else i
  }

  /** The words of the `/word` groups that start at i, as many as can be read. */
  function TokensFrom(s: string, i: nat): seq<string>
    requires i <= |s|
    decreases |s| - i
  {
    if i < |s| && s[i] == '/' && WordEnd(s, i + 1) > i + 1 then
      [s[i + 1..WordEnd(s, i + 1)]] + TokensFrom(s, WordEnd(s, i + 1))
    else []
  }

  /** Where those groups end. */
  function GroupsEnd(s: string, i: nat): (j: nat)
    requires i <= |s|
    ensures i <= j <= |s|
    decreases |s| - i
  {
    if i < |s| && s[i] == '/' && WordEnd(s, i + 1) > i + 1 then GroupsEnd(s, WordEnd(s, i + 1)) else i
  }

  /** `parse_actions(body)`: when the body opens with one or more `/word` groups followed by
      white space or the end, the words and the stripped rest; otherwise no actions and the
      whole body. */
  function ParseActions(body: string): (r: Parsed)
    ensures r.raw == body
    ensures r.actions == [] ==> r.text == body
    ensures forall k :: 0 <= k < |r.actions| ==> IsWord(r.actions[k]) && '/' !in r.actions[k]
  {
    if body == "" then Parsed([], "", "")
    else
      var tokens, n := TokensFrom(body, 0), GroupsEnd(body, 0);
      TokensAreWords(body, 0);
      if tokens != [] && (n == |body| || IsSpace(body[n])) then
        Parsed(tokens, Strip(body[n..]), body)
      else
        Parsed([], body, body)
  }

  /** Every character of a word run is a word character. */
  lemma {:induction false} WordEndSpec(s: string, i: nat)
    requires i <= |s|
    ensures forall k :: i <= k < WordEnd(s, i) ==> IsWordChar(s[k])
    ensures WordEnd(s, i) < |s| ==> !IsWordChar(s[WordEnd(s, i)])
    decreases |s| - i
  {
    if i < |s| && IsWordChar(s[i]) {
      WordEndSpec(s, i + 1);
    }
  }

  /** A run of word characters ending before a non-word character is read whole. */
  lemma {:induction false} WordEndAt(s: string, i: nat, j: nat)
    requires i <= j <= |s|
    requires forall k :: i <= k < j ==> IsWordChar(s[k])
    requires j == |s| || !IsWordChar(s[j])
    ensures WordEnd(s, i) == j
    decreases j - i
  {
    if i < j {
      WordEndAt(s, i + 1, j);
    }
  }

  /** The scanner's words are command tokens. */
  lemma {:induction false} TokensAreWords(s: string, i: nat)
    requires i <= |s|
    ensures forall k :: 0 <= k < |TokensFrom(s, i)| ==> IsWord(TokensFrom(s, i)[k])
    decreases |s| - i
  {
    if i < |s| && s[i] == '/' && WordEnd(s, i + 1) > i + 1 {
      var w := WordEnd(s, i + 1);
      WordEndSpec(s, i + 1);
      TokensAreWords(s, w);
      var t := s[i + 1..w];
      assert IsWord(t);
      assert TokensFrom(s, i) == [t] + TokensFrom(s, w);
    }
  }

  /** The scanned groups spell out the text they were read from. */
  lemma {:induction false} TokensSpellGroups(s: string, i: nat)
    requires i <= |s|
    ensures CommandGroup(TokensFrom(s, i)) == s[i..GroupsEnd(s, i)]
    decreases |s| - i
  {
    if i < |s| && s[i] == '/' && WordEnd(s, i + 1) > i + 1 {
      var w := WordEnd(s, i + 1);
      var j := GroupsEnd(s, i);
      TokensSpellGroups(s, w);
      var ts := TokensFrom(s, i);
      assert ts[0] == s[i + 1..w] && ts[1..] == TokensFrom(s, w);
      assert s[i..j] == [s[i]] + s[i + 1..w] + s[w..j];
    } else {
      assert TokensFrom(s, i) == [];
    }
  }

  /** The scanner reads exactly the tokens of a command group found at i, provided what
      follows the group cannot continue it. */
  lemma {:induction false} ScanRendered(s: string, i: nat, tokens: seq<string>)
    requires forall k :: 0 <= k < |tokens| ==> IsWord(tokens[k])
    requires i + |CommandGroup(tokens)| <= |s| && s[i..i + |CommandGroup(tokens)|] == CommandGroup(tokens)
    requires var e := i + |CommandGroup(tokens)|; e == |s| || (!IsWordChar(s[e]) && s[e] != '/')
    ensures TokensFrom(s, i) == tokens
    ensures GroupsEnd(s, i) == i + |CommandGroup(tokens)|
    decreases |tokens|
  {
    if tokens != [] {
      var t, tail := tokens[0], tokens[1..];
      var w := i + 1 + |t|;
      GroupHead(s, i, tokens);
      assert forall k :: i + 1 <= k < w ==> s[k] == t[k - i - 1];
      WordEndAt(s, i + 1, w);
      ScanRendered(s, w, tail);
      assert [t] + tail == tokens;
    }
  }

  /** A command group at i opens with '/', its first token, and the group of the rest,
      which starts with '/' when it is not empty. */
  lemma GroupHead(s: string, i: nat, tokens: seq<string>)
    requires tokens != []
    requires i + |CommandGroup(tokens)| <= |s| && s[i..i + |CommandGroup(tokens)|] == CommandGroup(tokens)
    ensures var w, e := i + 1 + |tokens[0]|, i + |CommandGroup(tokens)|;
      w <= e && s[i] == '/' && s[i + 1..w] == tokens[0] && s[w..e] == CommandGroup(tokens[1..]) &&
      (tokens[1..] != [] ==> s[w] == '/')
  {
    var t, tail := tokens[0], tokens[1..];
    var rest := CommandGroup(tail);
    assert CommandGroup(tokens) == ['/'] + t + rest;
    SliceParts(s, i, ['/'], t, rest);
    var w := i + 1 + |t|;
    if tail != [] {
      assert rest[0] == '/';
      assert s[w] == s[w..w + |rest|][0];
    }
  }

  /** A slice that spells a + b + c is made of slices spelling a, b and c. */
  lemma SliceParts(s: string, i: nat, a: string, b: string, c: string)
    requires i + |a + b + c| <= |s| && s[i..i + |a + b + c|] == a + b + c
    ensures s[i..i + |a|] == a
    ensures s[i + |a|..i + |a| + |b|] == b
    ensures s[i + |a| + |b|..i + |a + b + c|] == c
  {
    var abc := a + b + c;
    var n := |abc|;
    forall k | 0 <= k < n ensures s[i + k] == abc[k] {
      assert s[i..i + n][k] == s[i + k];
    }
    forall k | 0 <= k < |a| ensures s[i..i + |a|][k] == a[k] {
      assert abc[k] == a[k];
    }
    forall k | 0 <= k < |b| ensures s[i + |a|..i + |a| + |b|][k] == b[k] {
      assert abc[|a| + k] == b[k];
    }
    forall k | 0 <= k < |c| ensures s[i + |a| + |b|..i + n][k] == c[k] {
      assert abc[|a| + |b| + k] == c[k];
    }
  }

  /** When actions are found, they are the words of a command group that opens the body
      and is followed by the end or by white space; the text is the rest, stripped. */
  lemma CommandsFound(body: string)
    requires ParseActions(body).actions != []
    ensures var r := ParseActions(body);
      var g := CommandGroup(r.actions);
      g <= body && (|g| == |body| || IsSpace(body[|g|])) &&
      r.text == Strip(body[|g|..])
  {
    TokensSpellGroups(body, 0);
  }

  /** Conversely, a body made of a command group, then nothing or white space and any text,
      yields exactly those tokens, in order and with repeats kept, and that text stripped. */
  lemma CommandsParsed(tokens: seq<string>, rest: string)
    requires tokens != []
    requires forall k :: 0 <= k < |tokens| ==> IsWord(tokens[k])
    requires rest == [] || IsSpace(rest[0])
    ensures ParseActions(CommandGroup(tokens) + rest) == Parsed(tokens, Strip(rest), CommandGroup(tokens) + rest)
  {
    var g := CommandGroup(tokens);
    var body := g + rest;
    assert g[0] == '/';
    assert body[..|g|] == g;
    assert body[|g|..] == rest;
    if rest != [] {
      SpaceEndsGroup(rest[0]);
    }
    ScanRendered(body, 0, tokens);
    ParseActionsFound(body);
  }

  /** White space can neither extend a word nor open another command. */
  lemma SpaceEndsGroup(c: char)
    requires IsSpace(c)
    ensures !IsWordChar(c) && c != '/'
  {
  }

  /** ParseActions unfolded for a body whose command group is followed by the end or by
      white space. */
  lemma ParseActionsFound(body: string)
    requires TokensFrom(body, 0) != []
    requires GroupsEnd(body, 0) == |body| || IsSpace(body[GroupsEnd(body, 0)])
    ensures ParseActions(body) == Parsed(TokensFrom(body, 0), Strip(body[GroupsEnd(body, 0)..]), body)
  {
  }

  /** A body that does not open with '/' carries no actions. */
  lemma NoLeadingSlash(body: string)
    requires body == [] || body[0] != '/'
    ensures ParseActions(body) == Parsed([], body, body)
  {
  }

  /** `/a/b hello world` carries the actions a and b and the text "hello world". */
  lemma ExampleTwoActions()
    ensures ParseActions("/a/b hello world") == Parsed(["a", "b"], "hello world", "/a/b hello world")
  {
    var s := "/a/b hello world";
    assert WordEnd(s, 4) == 4;
    assert WordEnd(s, 3) == 4;
    assert WordEnd(s, 2) == 2;
    assert WordEnd(s, 1) == 2;
    assert GroupsEnd(s, 4) == 4;
    assert GroupsEnd(s, 2) == 4;
    assert GroupsEnd(s, 0) == 4;
    assert TokensFrom(s, 4) == [];
    assert s[3..4] == "b" && s[1..2] == "a";
    assert TokensFrom(s, 2) == ["b"];
    assert TokensFrom(s, 0) == ["a", "b"];
    StripOneSpace(s[4..]);
  }

  /** One leading space before a text that starts and ends with a non-space is all that
      stripping removes. */
  lemma StripOneSpace(s: string)
    requires |s| >= 2 && IsSpace(s[0]) && !IsSpace(s[1]) && !IsSpace(s[|s| - 1])
    ensures Strip(s) == s[1..]
  {
    StripUnchanged(s[1..]);
  }

  /** A body of commands alone leaves an empty text. */
  lemma ExampleActionOnly()
    ensures ParseActions("/a") == Parsed(["a"], "", "/a")
  {
    CommandsParsed(["a"], "");
    assert CommandGroup(["a"]) + "" == "/a";
  }

  /** A repeated action is kept, and the text may span lines. */
  lemma ExampleRepeatedAction()
    ensures ParseActions("/q/q two\nlines") == Parsed(["q", "q"], "two\nlines", "/q/q two\nlines")
  {
    var s := "/q/q two\nlines";
    assert WordEnd(s, 4) == 4;
    assert WordEnd(s, 3) == 4;
    assert WordEnd(s, 2) == 2;
    assert WordEnd(s, 1) == 2;
    assert GroupsEnd(s, 4) == 4;
    assert GroupsEnd(s, 2) == 4;
    assert GroupsEnd(s, 0) == 4;
    assert TokensFrom(s, 4) == [];
    assert s[3..4] == "q" && s[1..2] == "q";
    assert TokensFrom(s, 2) == ["q"];
    assert TokensFrom(s, 0) == ["q", "q"];
    StripOneSpace(s[4..]);
  }

  /** A non-word character inside the command group makes the whole body plain text. */
  lemma ExampleBrokenToken()
    ensures ParseActions("/a-b x") == Parsed([], "/a-b x", "/a-b x")
  {
    var s := "/a-b x";
    assert WordEnd(s, 2) == 2;
    assert WordEnd(s, 1) == 2;
    assert GroupsEnd(s, 2) == 2;
    assert GroupsEnd(s, 0) == 2;
  }

  /** A trailing slash makes the whole body plain text. */
  lemma ExampleTrailingSlash()
    ensures ParseActions("/a/") == Parsed([], "/a/", "/a/")
  {
    var s := "/a/";
    assert WordEnd(s, 3) == 3;
    assert WordEnd(s, 2) == 2;
    assert WordEnd(s, 1) == 2;
    assert GroupsEnd(s, 2) == 2;
    assert GroupsEnd(s, 0) == 2;
  }
}
