/** The header-path fold of the scripted instrument: a relative header continues the path of the command before it. */
module HeaderPaths {
  import opened ByteStrings
  import opened Errors

  /** `text.split(maxsplit=1)[0]` on non-blank text. */
  function FirstWord(t: Text): Text {
    Run(StripLeft(t, TextBlanks))
  }

  /** The longest prefix without a blank. */
  function Run(t: Text): Text {
    if t == [] || IsBlank(t[0], TextBlanks) then [] else [t[0]] + Run(t[1..])
  }

  function LastColon(t: Text): (i: int)
    ensures -1 <= i < |t|
    ensures i >= 0 ==> t[i] == COLON
    ensures forall j | i < j < |t| :: t[j] != COLON
  {
    if t == [] then -1
    else if t[|t| - 1] == COLON then |t| - 1
    else LastColon(t[..|t| - 1])
  }

  predicate StartsWith(t: Text, c: int) {
    t != [] && t[0] == c
  }

  function WithoutQuestion(word: Text): Text {
    if word != [] && word[|word| - 1] == QUESTION then word[..|word| - 1] else word
  }

  /** The path that a command leaves for the next relative header; empty is the root. */
  function ParentOf(command: Text): Text {
    var header := WithoutQuestion(FirstWord(command));
    if LastColon(header) >= 0 && !StartsWith(header, STAR) then header[..LastColon(header)] else []
  }

  function Resolve(part: Text, parent: Text): Text {
    var stripped := Strip(part, TextBlanks);
    if StartsWith(stripped, COLON) then stripped[1..]
    else if StartsWith(stripped, STAR) || parent == [] then stripped
    else parent + [COLON] + stripped
  }

  /** The fold; splitting a blank command into words has no first word, which raises. */
  function Inherit(parts: seq<Text>, parent: Text): Result<seq<Text>> {
    if parts == [] then Ok([])
    else
      var command := Resolve(parts[0], parent);
      if Strip(command, TextBlanks) == [] then Err(IndexError)
      else
        var rest :- Inherit(parts[1..], ParentOf(command));
        Ok([command] + rest)
  }

  function Prepend<T>(done: seq<T>, rest: Result<seq<T>>): Result<seq<T>> {
    if rest.Ok? then Ok(done + rest.value) else Err(rest.error)
  }

  lemma PrependNothing<T>(rest: Result<seq<T>>)
    ensures Prepend([], rest) == rest
  {
    if rest.Ok? {
      assert [] + rest.value == rest.value;
    }
  }

  /** One round of the fold, seen from the parts still to come. */
  lemma PrependStep(done: seq<Text>, parts: seq<Text>, parent: Text)
    requires parts != []
    ensures var command := Resolve(parts[0], parent);
            Prepend(done, Inherit(parts, parent)) ==
            if Strip(command, TextBlanks) == [] then Err(IndexError)
            else Prepend(done + [command], Inherit(parts[1..], ParentOf(command)))
  {
    hide Resolve, ParentOf, Strip;
    var command := Resolve(parts[0], parent);
    var rest := Inherit(parts[1..], ParentOf(command));
    if rest.Ok? {
      assert done + ([command] + rest.value) == (done + [command]) + rest.value;
    }
  }

  method InheritHeaderPaths(parts: seq<Text>) returns (r: Result<seq<Text>>)
    ensures r == Inherit(parts, [])
  {
    var result: seq<Text> := [];
    var parent: Text := [];
    assert parts[0..] == parts;
    PrependNothing(Inherit(parts, []));
    for i := 0 to |parts|
      invariant Inherit(parts, []) == Prepend(result, Inherit(parts[i..], parent))
    {
      PrependStep(result, parts[i..], parent);
      assert parts[i..][1..] == parts[i + 1..];
      var stripped := Strip(parts[i], TextBlanks);
      var command: Text;
      if StartsWith(stripped, COLON) {
        command := stripped[1..];
      } else if StartsWith(stripped, STAR) || parent == [] {
        command := stripped;
      } else {
        command := parent + [COLON] + stripped;
      }
      if Strip(command, TextBlanks) == [] {
        return Err(IndexError);
      }
      result := result + [command];
      var header := WithoutQuestion(FirstWord(command));
      if LastColon(header) >= 0 && !StartsWith(header, STAR) {
        parent := header[..LastColon(header)];
      } else {
        parent := [];
      }
    }
    assert result + [] == result;
    r := Ok(result);
  }

  // ---- what the fold means

  /** Every resolved command depends on its own part and on the one resolved command before it. */
  lemma {:induction false} InheritPointwise(parts: seq<Text>, parent: Text)
    requires Inherit(parts, parent).Ok?
    ensures var cs := Inherit(parts, parent).value;
            |cs| == |parts| &&
            forall i | 0 <= i < |parts| ::
              cs[i] == Resolve(parts[i], if i == 0 then parent else ParentOf(cs[i - 1]))
  {
    hide Resolve, ParentOf, Strip;
    if parts != [] {
      var cs := Inherit(parts, parent).value;
      InheritPointwise(parts[1..], ParentOf(cs[0]));
      var rest := Inherit(parts[1..], ParentOf(cs[0])).value;
      assert cs == [cs[0]] + rest;
      forall i | 0 < i < |parts|
        ensures cs[i] == Resolve(parts[i], ParentOf(cs[i - 1]))
      {
        assert cs[i] == rest[i - 1];
      }
    }
  }

  /** On non-blank parts the fold raises exactly when one of them is a bare colon. */
  lemma {:induction false} InheritFailsIff(parts: seq<Text>, parent: Text)
    requires forall i | 0 <= i < |parts| :: Strip(parts[i], TextBlanks) != []
    ensures Inherit(parts, parent).Err? <==>
            exists i | 0 <= i < |parts| :: Strip(parts[i], TextBlanks) == [COLON]
    ensures Inherit(parts, parent).Err? ==> Inherit(parts, parent).error == IndexError
  {
    hide Resolve, ParentOf, Strip;
    if parts != [] {
      var command := Resolve(parts[0], parent);
      ResolveBlankIff(parts[0], parent);
      InheritFailsIff(parts[1..], ParentOf(command));
      assert forall i | 1 <= i < |parts| :: parts[i] == parts[1..][i - 1];
    }
  }

  lemma ResolveBlankIff(part: Text, parent: Text)
    requires Strip(part, TextBlanks) != []
    ensures Strip(Resolve(part, parent), TextBlanks) == [] <==> Strip(part, TextBlanks) == [COLON]
  {
    var stripped := Strip(part, TextBlanks);
    var command := Resolve(part, parent);
    StripShape(part, TextBlanks);
    StripBlankIff(command, TextBlanks);
    if stripped != [COLON] {
      assert command != [] && !IsBlank(command[|command| - 1], TextBlanks);
    }
  }

  function Absolute(commands: seq<Text>): (parts: seq<Text>)
    ensures |parts| == |commands|
    ensures forall i | 0 <= i < |parts| :: parts[i] == [COLON] + commands[i]
  {
    seq(|commands|, i requires 0 <= i < |commands| => [COLON] + commands[i])
  }

  /** Writing the resolved commands back in absolute form resolves to the same commands, from any path. */
  lemma {:induction false} InheritAbsolute(parts: seq<Text>, parent: Text, other: Text)
    requires Inherit(parts, parent).Ok?
    ensures Inherit(Absolute(Inherit(parts, parent).value), other) == Inherit(parts, parent)
  {
    hide ParentOf, Strip;
    if parts != [] {
      var cs := Inherit(parts, parent).value;
      var command := cs[0];
      ResolveEndsNonBlank(parts[0], parent);
      assert Trimmed([COLON] + command, TextBlanks);
      StripTrimmed([COLON] + command, TextBlanks);
      assert Resolve(Absolute(cs)[0], other) == ([COLON] + command)[1..] == command;
      assert Absolute(cs)[1..] == Absolute(cs[1..]);
      assert cs[1..] == Inherit(parts[1..], ParentOf(command)).value;
      InheritAbsolute(parts[1..], ParentOf(command), ParentOf(command));
    }
  }

  lemma ResolveEndsNonBlank(part: Text, parent: Text)
    requires Strip(Resolve(part, parent), TextBlanks) != []
    ensures var c := Resolve(part, parent); c != [] && !IsBlank(c[|c| - 1], TextBlanks)
  {
    StripShape(part, TextBlanks);
    var c := Resolve(part, parent);
  }

  /** A header is a path of at least one node, a colon and a leaf; what follows it is blank-separated arguments. */
  predicate IsNode(node: Text) {
    forall i | 0 <= i < |node| :: node[i] != COLON && !IsBlank(node[i], TextBlanks)
  }

  predicate IsPath(path: Text) {
    path != [] && path[0] != STAR && forall i | 0 <= i < |path| :: !IsBlank(path[i], TextBlanks)
  }

  predicate IsArguments(arguments: Text) {
    arguments == [] || IsBlank(arguments[0], TextBlanks)
  }

  /** A command below a path leaves that path to its successor, whatever its arguments and with or without `?`. */
  lemma ParentOfPath(path: Text, leaf: Text, arguments: Text)
    requires IsPath(path) && IsNode(leaf) && IsArguments(arguments)
    ensures ParentOf(path + [COLON] + leaf + arguments) == path
  {
    var header := path + [COLON] + leaf;
    var command := header + arguments;
    assert command[0] == path[0];
    RunOfWord(header, arguments);
    assert FirstWord(command) == header;
    var plain := WithoutQuestion(header);
    assert plain == path + [COLON] + leaf || (leaf != [] && plain == path + [COLON] + leaf[..|leaf| - 1]);
    assert plain[|path|] == COLON;
    assert LastColon(plain) == |path|;
  }

  /** A single-node header and a common command both leave the root. */
  lemma ParentOfRoot(word: Text, arguments: Text)
    requires word != [] && (forall i | 0 <= i < |word| :: !IsBlank(word[i], TextBlanks)) && IsArguments(arguments)
    requires IsNode(word) || word[0] == STAR
    ensures ParentOf(word + arguments) == []
  {
    assert (word + arguments)[0] == word[0];
    RunOfWord(word, arguments);
    var header := WithoutQuestion(word);
    assert header <= word;
  }

  lemma {:induction false} RunOfWord(word: Text, rest: Text)
    requires forall i | 0 <= i < |word| :: !IsBlank(word[i], TextBlanks)
    requires IsArguments(rest)
    ensures Run(word + rest) == word
  {
    if word == [] {
      assert word + rest == rest;
    } else {
      assert (word + rest)[1..] == word[1..] + rest;
      RunOfWord(word[1..], rest);
    }
  }

  // ---- what a part becomes behind other commands

  /** The fold of a longer list goes on where the shorter one ended. */
  lemma {:induction false} InheritLast(parts: seq<Text>, part: Text, parent: Text)
    requires Inherit(parts, parent).Ok?
    ensures var cs := Inherit(parts, parent).value;
            Inherit(parts + [part], parent)
            == Prepend(cs, Inherit([part], if cs == [] then parent else ParentOf(cs[|cs| - 1])))
    decreases |parts|
  {
    hide Resolve, ParentOf, Strip;
    var cs := Inherit(parts, parent).value;
    if parts == [] {
      assert parts + [part] == [part];
      PrependNothing(Inherit([part], parent));
    } else {
      assert (parts + [part])[1..] == parts[1..] + [part] && (parts + [part])[0] == parts[0];
      InheritLast(parts[1..], part, ParentOf(cs[0]));
      var rest := Inherit(parts[1..], ParentOf(cs[0])).value;
      assert cs == [cs[0]] + rest;
      var last := Inherit([part], if rest == [] then ParentOf(cs[0]) else ParentOf(rest[|rest| - 1]));
      if last.Ok? {
        assert [cs[0]] + (rest + last.value) == cs + last.value;
      }
    }
  }

  lemma InheritOne(part: Text, parent: Text)
    requires Trimmed(part, TextBlanks)
    ensures part[0] == STAR ==> Inherit([part], parent) == Ok([part])
    ensures part[0] == COLON && Strip(part[1..], TextBlanks) != [] ==> Inherit([part], parent) == Ok([part[1..]])
    ensures part[0] != COLON && part[0] != STAR && parent == [] ==> Inherit([part], parent) == Ok([part])
    ensures part[0] != COLON && part[0] != STAR && IsPath(parent) ==>
              Inherit([part], parent) == Ok([parent + [COLON] + part])
  {
    StripTrimmed(part, TextBlanks);
    var command := Resolve(part, parent);
    StripBlankIff(command, TextBlanks);
    assert [part][1..] == [] && [command] + [] == [command];
    assert part[0] != COLON ==> command[|command| - 1] == part[|part| - 1];
    hide ParentOf;
  }

  lemma InheritTwo(first: Text, part: Text)
    requires Trimmed(first, TextBlanks) && first[0] != COLON
    requires Trimmed(part, TextBlanks) && part[0] != COLON && part[0] != STAR
    requires ParentOf(first) == [] || IsPath(ParentOf(first))
    ensures Inherit([first, part], [])
            == Ok([first, if ParentOf(first) == [] then part else ParentOf(first) + [COLON] + part])
  {
    hide Resolve, ParentOf, Strip, Inherit, IsPath, IsBlank;
    InheritOne(first, []);
    InheritOne(part, ParentOf(first));
    InheritLast([first], part, []);
    var served := if ParentOf(first) == [] then part else ParentOf(first) + [COLON] + part;
    assert [first] + [part] == [first, part] && [first] + [served] == [first, served];
  }

  /** Behind a command below a path, a relative part is served below that same path. */
  lemma RelativeContinues(path: Text, leaf: Text, arguments: Text, part: Text)
    requires IsPath(path) && path[0] != COLON && IsNode(leaf) && IsArguments(arguments)
    requires Trimmed(path + [COLON] + leaf + arguments, TextBlanks)
    requires Trimmed(part, TextBlanks) && part[0] != COLON && part[0] != STAR
    ensures var first := path + [COLON] + leaf + arguments;
            Inherit([first, part], []) == Ok([first, path + [COLON] + part])
  {
    var first := path + [COLON] + leaf + arguments;
    assert first[0] == path[0] && path != [];
    hide Resolve, ParentOf, Strip, Inherit, IsNode, IsBlank;
    ParentOfPath(path, leaf, arguments);
    InheritTwo(first, part);
  }

  /** Behind a single-node header or a common command, a relative part is served as it stands. */
  lemma RelativeAtRoot(word: Text, arguments: Text, part: Text)
    requires word != [] && (forall i | 0 <= i < |word| :: !IsBlank(word[i], TextBlanks)) && IsArguments(arguments)
    requires IsNode(word) || word[0] == STAR
    requires Trimmed(word + arguments, TextBlanks)
    requires Trimmed(part, TextBlanks) && part[0] != COLON && part[0] != STAR
    ensures Inherit([word + arguments, part], []) == Ok([word + arguments, part])
  {
    assert (word + arguments)[0] == word[0];
    hide Resolve, ParentOf, Strip, Inherit, IsBlank;
    ParentOfRoot(word, arguments);
    InheritTwo(word + arguments, part);
  }

  /** Behind any commands, a common command is served as it stands, and an absolute part without its colon. */
  lemma AbsoluteAnywhere(parts: seq<Text>, part: Text, parent: Text)
    requires Inherit(parts, parent).Ok? && Trimmed(part, TextBlanks)
    requires part[0] == STAR || (part[0] == COLON && |part| > 1)
    ensures var served := if part[0] == STAR then part else part[1..];
            Inherit(parts + [part], parent) == Ok(Inherit(parts, parent).value + [served])
  {
    hide Resolve, ParentOf, Inherit;
    var cs := Inherit(parts, parent).value;
    InheritLast(parts, part, parent);
    StripBlankIff(part[1..], TextBlanks);
    if part[0] == COLON {
      assert part[1..][|part| - 2] == part[|part| - 1];
    }
    InheritOne(part, if cs == [] then parent else ParentOf(cs[|cs| - 1]));
  }
}
