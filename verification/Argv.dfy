/**
  The command line parser, and the flag that may be given more than once.
 */
module Argv {
  import opened Wrappers

  /** A flag without a value is stored as `true`. */
  datatype FlagValue = Bare | Text(text: string)

  datatype Parsed = Parsed(commandPath: seq<string>, flags: map<string, FlagValue>)

  /** One argument: a flag is read up to its first `=`, if it has one. */
  datatype Token = Plain(text: string) | Assigned(name: string, value: string) | Flag(name: string)

  /** What the command line says, one thing at a time. */
  datatype Item = Word(word: string) | Switch(name: string) | Setting(name: string, value: string)

  const BOOLEAN_FLAGS := {
    "all", "attachments", "children", "comments", "current", "dry-run", "enter", "focus", "force", "full", "help",
    "inject", "interrupt", "json", "messages", "me", "mobile", "mobile-pairing", "no-pairing", "parent-current",
    "ready", "relations", "restore-window", "return-preamble", "run-hooks", "show-profile", "staged", "tasks",
    "text-stdin", "unread", "value-stdin", "wait"
  }
  const SEPARATOR := '\0'
  const REPEATABLE := "label"

  predicate IsFlag(token: string) {
    |token| >= 2 && token[0] == '-' && token[1] == '-'
  }

  lemma IsFlagIff(token: string)
    ensures IsFlag(token) <==> exists name :: token == "--" + name
  {
    if IsFlag(token) {
      assert token == "--" + token[2..];
    }
  }

  /** The first `=`, if any. */
  function IndexOfEquals(s: string): (at: Option<nat>)
    ensures at.None? <==> '=' !in s
    ensures at.Some? ==> at.value < |s| && s[at.value] == '=' && '=' !in s[..at.value]
  {
    if s == "" then None
    else if s[0] == '=' then Some(0)
    else match IndexOfEquals(s[1..])
      case None => None
      case Some(at) => Some(at + 1)
  }

  // -------------------------------------------------------------- Meaning

  function Read(token: string): Token {
    if !IsFlag(token) then Plain(token)
    else
      var name := token[2..];
      match IndexOfEquals(name)
      case Some(at) => Assigned(name[..at], name[at + 1..])
      case None => Flag(name)
  }

  function ReadAll(argv: seq<string>): seq<Token> {
    seq(|argv|, i requires 0 <= i < |argv| => Read(argv[i]))
  }

  /** A flag that is not boolean takes the next token, unless that is a flag. */
  predicate TakesValue(tokens: seq<Token>, booleans: set<string>, i: nat)
    requires i < |tokens|
  {
    tokens[i].Flag? && tokens[i].name !in booleans && i + 1 < |tokens| && tokens[i + 1].Plain?
  }

  /** The item that starts at token `i`. */
  function ItemAt(tokens: seq<Token>, booleans: set<string>, i: nat): Item
    requires i < |tokens|
  {
    match tokens[i]
    case Plain(text) => Word(text)
    case Assigned(name, value) => Setting(name, value)
    case Flag(name) => if TakesValue(tokens, booleans, i) then Setting(name, tokens[i + 1].text) else Switch(name)
  }

  function After(tokens: seq<Token>, booleans: set<string>, i: nat): (next: nat)
    requires i < |tokens|
    ensures i < next <= |tokens|
  {
    if TakesValue(tokens, booleans, i) then i + 2 else i + 1
  }

  function Items(tokens: seq<Token>, booleans: set<string>): seq<Item>
    decreases |tokens|
  {
    if tokens == [] then [] else [ItemAt(tokens, booleans, 0)] + Items(tokens[After(tokens, booleans, 0)..], booleans)
  }

  function Words(items: seq<Item>): seq<string> {
    if items == [] then []
    else
      var before := Words(items[..|items| - 1]);
      var last := items[|items| - 1];
      if last.Word? then before + [last.word] else before
  }

  function SetFlag(flags: map<string, FlagValue>, item: Item): map<string, FlagValue> {
    match item
    case Word(_) => flags
    case Switch(name) => flags[name := Bare]
    case Setting(name, value) =>
      if name == REPEATABLE && name in flags && flags[name].Text?
      then flags[name := Text(flags[name].text + [SEPARATOR] + value)]
      else flags[name := Text(value)]
  }

  function Flags(items: seq<Item>): map<string, FlagValue> {
    if items == [] then map[] else SetFlag(Flags(items[..|items| - 1]), items[|items| - 1])
  }

  function Meaning(argv: seq<string>, booleans: set<string>): Parsed {
    var items := Items(ReadAll(argv), booleans);
    Parsed(Words(items), Flags(items))
  }

  // -------------------------------------------------------------- The loop

  /** The parse of the tokens from `i` on, added to what those before it said. */
  function ParseFrom(tokens: seq<Token>, booleans: set<string>, i: nat, path: seq<string>, flags: map<string, FlagValue>): Parsed
    requires i <= |tokens|
    decreases |tokens| - i
  {
    if i == |tokens| then Parsed(path, flags)
    else
      var item := ItemAt(tokens, booleans, i);
      ParseFrom(tokens, booleans, After(tokens, booleans, i), if item.Word? then path + [item.word] else path, SetFlag(flags, item))
  }

  lemma OneMoreItem(done: seq<Item>, item: Item)
    ensures Words(done + [item]) == if item.Word? then Words(done) + [item.word] else Words(done)
    ensures Flags(done + [item]) == SetFlag(Flags(done), item)
  {
    assert (done + [item])[..|done|] == done;
  }

  lemma ItemsFrom(tokens: seq<Token>, booleans: set<string>, i: nat)
    requires i < |tokens|
    ensures Items(tokens[i..], booleans) == [ItemAt(tokens, booleans, i)] + Items(tokens[After(tokens, booleans, i)..], booleans)
  {
    var rest := tokens[i..];
    assert rest[0] == tokens[i] && (|rest| > 1 ==> rest[1] == tokens[i + 1]);
    assert rest[After(rest, booleans, 0)..] == tokens[After(tokens, booleans, i)..];
  }

  lemma ParseStep(tokens: seq<Token>, booleans: set<string>, i: nat, done: seq<Item>)
    requires i < |tokens|
    ensures var further := done + [ItemAt(tokens, booleans, i)];
            ParseFrom(tokens, booleans, i, Words(done), Flags(done)) ==
            ParseFrom(tokens, booleans, After(tokens, booleans, i), Words(further), Flags(further))
  {
    OneMoreItem(done, ItemAt(tokens, booleans, i));
  }

  /** The parse from `i` on means what is done and the items still to come. */
  ghost predicate MeansRest(tokens: seq<Token>, booleans: set<string>, i: nat, done: seq<Item>)
    requires i <= |tokens|
  {
    var all := done + Items(tokens[i..], booleans);
    ParseFrom(tokens, booleans, i, Words(done), Flags(done)) == Parsed(Words(all), Flags(all))
  }

  lemma MeansOneMore(tokens: seq<Token>, booleans: set<string>, i: nat, done: seq<Item>)
    requires i < |tokens| && MeansRest(tokens, booleans, After(tokens, booleans, i), done + [ItemAt(tokens, booleans, i)])
    ensures MeansRest(tokens, booleans, i, done)
  {
    hide Words, Flags, Items, ParseFrom;
    var item, rest := ItemAt(tokens, booleans, i), Items(tokens[After(tokens, booleans, i)..], booleans);
    ParseStep(tokens, booleans, i, done);
    ItemsFrom(tokens, booleans, i);
    assert done + ([item] + rest) == done + [item] + rest;
  }

  lemma {:induction false} ParseFromMeans(tokens: seq<Token>, booleans: set<string>, i: nat, done: seq<Item>)
    requires i <= |tokens|
    ensures MeansRest(tokens, booleans, i, done)
    decreases |tokens| - i
  {
    if i == |tokens| {
      assert done + [] == done;
    } else {
      ParseFromMeans(tokens, booleans, After(tokens, booleans, i), done + [ItemAt(tokens, booleans, i)]);
      MeansOneMore(tokens, booleans, i, done);
    }
  }

  lemma ParseAllMeans(argv: seq<string>, booleans: set<string>)
    ensures ParseFrom(ReadAll(argv), booleans, 0, [], map[]) == Meaning(argv, booleans)
  {
    var tokens := ReadAll(argv);
    ParseFromMeans(tokens, booleans, 0, []);
    assert tokens[0..] == tokens && [] + Items(tokens, booleans) == Items(tokens, booleans);
  }

  lemma ParseOne(tokens: seq<Token>, booleans: set<string>, i: nat, path: seq<string>, flags: map<string, FlagValue>)
    requires i < |tokens|
    ensures var item := ItemAt(tokens, booleans, i);
            ParseFrom(tokens, booleans, i, path, flags) ==
            ParseFrom(tokens, booleans, After(tokens, booleans, i), if item.Word? then path + [item.word] else path, SetFlag(flags, item))
  {
  }

  lemma ParseEnd(tokens: seq<Token>, booleans: set<string>, path: seq<string>, flags: map<string, FlagValue>)
    ensures ParseFrom(tokens, booleans, |tokens|, path, flags) == Parsed(path, flags)
  {
  }

  method SetFlagValue(flags: map<string, FlagValue>, name: string, value: string) returns (updated: map<string, FlagValue>)
    ensures updated == SetFlag(flags, Setting(name, value))
  {
    if name in flags && flags[name].Text? && name == REPEATABLE {
      return flags[name := Text(flags[name].text + [SEPARATOR] + value)];
    }
    return flags[name := Text(value)];
  }

  /** The loop over the arguments. `booleans` are the flags that never take the next
      token. */
  method ParseArgs(argv: seq<string>, booleans: set<string>) returns (parsed: Parsed)
    ensures parsed == Meaning(argv, booleans)
  {
    hide ParseFrom, Meaning, IndexOfEquals;
    var commandPath: seq<string> := [];
    var flags: map<string, FlagValue> := map[];
    ghost var tokens, answer := ReadAll(argv), Meaning(argv, booleans);
    ParseAllMeans(argv, booleans);
    var i := 0;
    while i < |argv|
      invariant i <= |argv| && ParseFrom(tokens, booleans, i, commandPath, flags) == answer
      decreases |argv| - i
    {
      var token := argv[i];
      ParseOne(tokens, booleans, i, commandPath, flags);
      assert tokens[i] == Read(token);
      if !IsFlag(token) {
        commandPath := commandPath + [token];
        i := i + 1;
        continue;
      }
      var assignment := token[2..];
      var equalsIndex := IndexOfEquals(assignment);
      if equalsIndex.Some? {
        flags := SetFlagValue(flags, assignment[..equalsIndex.value], assignment[equalsIndex.value + 1..]);
        i := i + 1;
        continue;
      }
      if assignment in booleans {
        flags := flags[assignment := Bare];
        i := i + 1;
        continue;
      }
      if i + 1 == |argv| || IsFlag(argv[i + 1]) {
        flags := flags[assignment := Bare];
        i := i + 1;
        continue;
      }
      flags := SetFlagValue(flags, assignment, argv[i + 1]);
      i := i + 2;
    }
    ParseEnd(tokens, booleans, commandPath, flags);
    return Parsed(commandPath, flags);
  }

  /** The parser with the flags it is used with. */
  method ParseCommandLine(argv: seq<string>) returns (parsed: Parsed)
    ensures parsed == Meaning(argv, BOOLEAN_FLAGS)
  {
    parsed := ParseArgs(argv, BOOLEAN_FLAGS);
  }

  // -------------------------------------- `--f v` and `--f=v` mean the same

  /** A flag starts a new item whatever comes before it. */
  lemma {:induction false} FlagStartsItem(a: seq<Token>, b: seq<Token>, booleans: set<string>)
    requires b != [] && !b[0].Plain?
    ensures Items(a + b, booleans) == Items(a, booleans) + Items(b, booleans)
    decreases |a|
  {
    if a == [] {
      assert a + b == b;
    } else {
      var next := After(a, booleans, 0);
      assert After(a + b, booleans, 0) == next && ItemAt(a + b, booleans, 0) == ItemAt(a, booleans, 0);
      assert (a + b)[next..] == a[next..] + b;
      FlagStartsItem(a[next..], b, booleans);
    }
  }

  lemma ReadsApart(a: seq<string>, b: seq<string>)
    ensures ReadAll(a + b) == ReadAll(a) + ReadAll(b)
  {
  }

  lemma FirstEqualsIs(s: string, k: nat)
    requires k < |s| && s[k] == '=' && '=' !in s[..k]
    ensures IndexOfEquals(s) == Some(k)
  {
  }

  lemma ReadAssigned(name: string, value: string)
    requires '=' !in name
    ensures Read("--" + (name + "=" + value)) == Assigned(name, value)
  {
    var s := name + "=" + value;
    assert s[..|name|] == name && s[|name| + 1..] == value && ("--" + s)[2..] == s;
    FirstEqualsIs(s, |name|);
  }

  /** A flag, and the token after it. */
  function Spaced(f: string, v: string): seq<string> {
    ["--" + f, v]
  }

  /** The flag with the token assigned to it. */
  function Joined(f: string, v: string): seq<string> {
    ["--" + (f + "=" + v)]
  }

  predicate TakesNext(f: string, v: string, booleans: set<string>) {
    '=' !in f && f !in booleans && !IsFlag(v)
  }

  lemma ReadSpaced(f: string, v: string)
    requires '=' !in f
    ensures ReadAll(Spaced(f, v)) == [Flag(f), Read(v)]
  {
    assert ("--" + f)[2..] == f;
  }

  lemma SameItems(f: string, v: string, booleans: set<string>, rest: seq<Token>)
    requires f !in booleans
    ensures Items([Flag(f), Plain(v)] + rest, booleans) == Items([Assigned(f, v)] + rest, booleans)
  {
    assert ([Flag(f), Plain(v)] + rest)[2..] == rest && ([Assigned(f, v)] + rest)[1..] == rest;
  }

  /** The two ways of giving a flag a value can be exchanged anywhere. */
  lemma SpacedEqualsJoined(a: seq<string>, f: string, v: string, b: seq<string>, booleans: set<string>)
    requires TakesNext(f, v, booleans)
    ensures Meaning(a + (Spaced(f, v) + b), booleans) == Meaning(a + (Joined(f, v) + b), booleans)
  {
    ReadSpaced(f, v);
    ReadAssigned(f, v);
    ReadsApart(a, Spaced(f, v) + b);
    ReadsApart(a, Joined(f, v) + b);
    ReadsApart(Spaced(f, v), b);
    ReadsApart(Joined(f, v), b);
    assert ReadAll(Joined(f, v)) == [Assigned(f, v)];
    SameItems(f, v, booleans, ReadAll(b));
    FlagStartsItem(ReadAll(a), [Flag(f), Plain(v)] + ReadAll(b), booleans);
    FlagStartsItem(ReadAll(a), [Assigned(f, v)] + ReadAll(b), booleans);
  }

  lemma FlagsOfOne(item: Item)
    ensures Words([item]) == (if item.Word? then [item.word] else []) && Flags([item]) == SetFlag(map[], item)
  {
    assert [item][..0] == [];
  }

  lemma FlagsOfTwo(first: Item, second: Item)
    requires !first.Word?
    ensures Words([first, second]) == (if second.Word? then [second.word] else [])
    ensures Flags([first, second]) == SetFlag(SetFlag(map[], first), second)
  {
    assert [first, second][..1] == [first];
    FlagsOfOne(first);
  }

  lemma JoinedAlone(name: string, value: string, booleans: set<string>)
    requires '=' !in name
    ensures Meaning(Joined(name, value), booleans) == Parsed([], map[name := Text(value)])
  {
    ReadAssigned(name, value);
    assert ReadAll(Joined(name, value)) == [Assigned(name, value)];
    assert Items([Assigned(name, value)], booleans) == [Setting(name, value)];
    FlagsOfOne(Setting(name, value));
  }

  /** What a token says by itself. */
  function Alone(token: Token): Item {
    match token
    case Plain(text) => Word(text)
    case Assigned(name, value) => Setting(name, value)
    case Flag(name) => Switch(name)
  }

  /** The next token, read by itself, either is a word or leaves a trace in the flags
      that the joined form does not. */
  lemma LaterTokenShows(name: string, before: FlagValue, v: string, value: string)
    requires |v| <= |value| && (before.Text? ==> |before.text| + 1 + |v| <= |value|)
    ensures var second := Alone(Read(v));
            second.Word? || SetFlag(map[name := before], second) != map[name := Text(value)]
  {
    var second := Alone(Read(v));
    if !second.Word? {
      var flags := SetFlag(map[name := before], second);
      assert second.name in flags;
      if second.name == name && second.Setting? {
        assert flags[name].Text? && |flags[name].text| < |value|;
      } else if second.name == name {
        assert flags[name] == Bare;
      }
    }
  }

  lemma TwoItems(first: Token, second: Token, booleans: set<string>)
    requires !first.Plain? && !TakesValue([first, second], booleans, 0)
    ensures Items([first, second], booleans) == [Alone(first), Alone(second)]
  {
    assert [first, second][1..] == [second];
    assert Items([second], booleans) == [Alone(second)];
  }

  lemma SpacedMeaning(f: string, v: string, booleans: set<string>, first: Token)
    requires first == Read("--" + f) && !first.Plain? && !TakesValue([first, Read(v)], booleans, 0)
    ensures Meaning(Spaced(f, v), booleans) ==
            var second := Alone(Read(v));
            Parsed(if second.Word? then [second.word] else [], SetFlag(SetFlag(map[], Alone(first)), second))
  {
    assert ReadAll(Spaced(f, v)) == [first, Read(v)];
    TwoItems(first, Read(v), booleans);
    FlagsOfTwo(Alone(first), Alone(Read(v)));
  }

  lemma BareDiffers(f: string, v: string, booleans: set<string>)
    requires '=' !in f && !TakesNext(f, v, booleans)
    ensures Meaning(Spaced(f, v), booleans) != Meaning(Joined(f, v), booleans)
  {
    JoinedAlone(f, v, booleans);
    assert ("--" + f)[2..] == f;
    SpacedMeaning(f, v, booleans, Flag(f));
    LaterTokenShows(f, Bare, v, v);
  }

  lemma AssignedTwiceDiffers(name: string, value: string, v: string, booleans: set<string>)
    requires '=' !in name
    ensures Meaning(Spaced(name + "=" + value, v), booleans) != Meaning(Joined(name, value + "=" + v), booleans)
  {
    hide Meaning;
    var longer := value + "=" + v;
    JoinedAlone(name, longer, booleans);
    ReadAssigned(name, value);
    SpacedMeaning(name + "=" + value, v, booleans, Assigned(name, value));
    LaterTokenShows(name, Text(value), v, longer);
  }

  lemma NotExchangeable(f: string, v: string, booleans: set<string>)
    requires !TakesNext(f, v, booleans)
    ensures Meaning(Spaced(f, v), booleans) != Meaning(Joined(f, v), booleans)
  {
    match IndexOfEquals(f)
    case None => BareDiffers(f, v, booleans);
    case Some(at) =>
      var name, value := f[..at], f[at + 1..];
      assert f == name + "=" + value && f + "=" + v == name + "=" + (value + "=" + v);
      AssignedTwiceDiffers(name, value, v, booleans);
  }

  ghost predicate Exchangeable(f: string, v: string, booleans: set<string>) {
    forall a: seq<string>, b: seq<string> ::
      Meaning(a + (Spaced(f, v) + b), booleans) == Meaning(a + (Joined(f, v) + b), booleans)
  }

  /** The two ways of giving a flag a value mean the same everywhere exactly when the
      flag has no `=`, is not boolean, and the value does not look like a flag. */
  lemma ExchangeableIff(f: string, v: string, booleans: set<string>)
    ensures Exchangeable(f, v, booleans) <==> TakesNext(f, v, booleans)
  {
    if TakesNext(f, v, booleans) {
      forall a: seq<string>, b: seq<string>
        ensures Meaning(a + (Spaced(f, v) + b), booleans) == Meaning(a + (Joined(f, v) + b), booleans)
      {
        SpacedEqualsJoined(a, f, v, b, booleans);
      }
    } else {
      NotExchangeable(f, v, booleans);
      assert [] + (Spaced(f, v) + []) == Spaced(f, v) && [] + (Joined(f, v) + []) == Joined(f, v);
    }
  }

  // ---------------------------------------------------- The repeated flag

  function SplitOn(s: string, separator: char): (pieces: seq<string>)
    ensures pieces != []
  {
    if s == "" then [""]
    else
      var before := SplitOn(s[..|s| - 1], separator);
      if s[|s| - 1] == separator then before + [""] else Grow(before, s[|s| - 1])
  }

  /** The last piece, one character longer. */
  function Grow(pieces: seq<string>, c: char): (grown: seq<string>)
    requires pieces != []
    ensures grown != []
  {
    pieces[|pieces| - 1 := pieces[|pieces| - 1] + [c]]
  }

  function NonEmpty(pieces: seq<string>): seq<string> {
    if pieces == [] then []
    else
      var before := NonEmpty(pieces[..|pieces| - 1]);
      if pieces[|pieces| - 1] == "" then before else before + [pieces[|pieces| - 1]]
  }

  function GetOptionalStringFlag(flags: map<string, FlagValue>, name: string): Option<string> {
    if name in flags && flags[name].Text? && flags[name].text != "" then Some(flags[name].text) else None
  }

  function GetRepeatedStringFlag(flags: map<string, FlagValue>, name: string): seq<string> {
    match GetOptionalStringFlag(flags, name)
    case None => []
    case Some(value) => NonEmpty(SplitOn(value, SEPARATOR))
  }

  /** The values given to the repeatable flag since it last stood bare. */
  function Collected(items: seq<Item>): seq<string> {
    if items == [] then []
    else
      var before := Collected(items[..|items| - 1]);
      match items[|items| - 1]
      case Word(_) => before
      case Switch(name) => if name == REPEATABLE then [] else before
      case Setting(name, value) => if name == REPEATABLE then before + [value] else before
  }

  /** The pieces of all the values. */
  function Pieces(values: seq<string>): seq<string> {
    if values == [] then [] else Pieces(values[..|values| - 1]) + SplitOn(values[|values| - 1], SEPARATOR)
  }

  lemma GrowConcat(a: seq<string>, b: seq<string>, c: char)
    requires b != []
    ensures Grow(a + b, c) == a + Grow(b, c)
  {
  }

  lemma SplitOneMore(s: string, c: char, separator: char)
    ensures SplitOn(s + [c], separator) ==
            if c == separator then SplitOn(s, separator) + [""] else Grow(SplitOn(s, separator), c)
  {
    assert (s + [c])[..|s|] == s;
  }

  lemma NothingSplits(separator: char)
    ensures SplitOn("", separator) == [""]
  {
  }

  lemma {:induction false} SplitConcat(s: string, t: string, separator: char)
    ensures SplitOn(s + [separator] + t, separator) == SplitOn(s, separator) + SplitOn(t, separator)
    decreases |t|
  {
    hide SplitOn, Grow;
    if t == "" {
      SplitOneMore(s, separator, separator);
      NothingSplits(separator);
      assert s + [separator] + t == s + [separator];
    } else {
      var init, last := t[..|t| - 1], t[|t| - 1];
      SplitConcat(s, init, separator);
      SplitOneMore(s + [separator] + init, last, separator);
      SplitOneMore(init, last, separator);
      assert init + [last] == t && s + [separator] + init + [last] == s + [separator] + t;
      var a, b := SplitOn(s, separator), SplitOn(init, separator);
      if last == separator {
        assert a + b + [""] == a + (b + [""]);
      } else {
        GrowConcat(a, b, last);
      }
    }
  }

  /** What the map holds for the repeatable flag splits into the pieces of the values
      collected. */
  ghost predicate Holds(flags: map<string, FlagValue>, values: seq<string>) {
    if REPEATABLE in flags && flags[REPEATABLE].Text?
    then SplitOn(flags[REPEATABLE].text, SEPARATOR) == Pieces(values)
    else values == []
  }

  lemma PiecesAppend(values: seq<string>, value: string)
    ensures Pieces(values + [value]) == Pieces(values) + SplitOn(value, SEPARATOR)
  {
    assert (values + [value])[..|values|] == values;
  }

  lemma HoldsOneMore(flags: map<string, FlagValue>, values: seq<string>, value: string)
    requires Holds(flags, values)
    ensures Holds(SetFlag(flags, Setting(REPEATABLE, value)), values + [value])
  {
    PiecesAppend(values, value);
    if REPEATABLE in flags && flags[REPEATABLE].Text? {
      SplitConcat(flags[REPEATABLE].text, value, SEPARATOR);
    } else {
      assert Pieces([]) + SplitOn(value, SEPARATOR) == SplitOn(value, SEPARATOR);
    }
  }

  lemma OtherItemsKeepHolds(flags: map<string, FlagValue>, values: seq<string>, item: Item)
    requires Holds(flags, values) && (item.Word? || item.name != REPEATABLE)
    ensures Holds(SetFlag(flags, item), values)
  {
  }

  lemma {:induction false} FlagsHoldCollected(items: seq<Item>)
    ensures Holds(Flags(items), Collected(items))
  {
    if items != [] {
      var before, last := items[..|items| - 1], items[|items| - 1];
      FlagsHoldCollected(before);
      if last.Word? || last.name != REPEATABLE {
        OtherItemsKeepHolds(Flags(before), Collected(before), last);
      } else if last.Setting? {
        HoldsOneMore(Flags(before), Collected(before), last.value);
      }
    }
  }

  /** Reading the repeatable flag gives the non-empty pieces of every value since it
      last stood bare, in order: joining and splitting undo each other. */
  lemma RepeatedFlagReadsBack(items: seq<Item>)
    ensures GetRepeatedStringFlag(Flags(items), REPEATABLE) == NonEmpty(Pieces(Collected(items)))
  {
    FlagsHoldCollected(items);
    var flags := Flags(items);
    if REPEATABLE in flags && flags[REPEATABLE].Text? && flags[REPEATABLE].text == "" {
      assert NonEmpty(SplitOn("", SEPARATOR)) == [] by {
        assert SplitOn("", SEPARATOR) == [""] && [""][..0] == [];
      }
    }
  }

  // Values without the separator

  function SettingsOf(items: seq<Item>, name: string): seq<string> {
    if items == [] then []
    else
      var before := SettingsOf(items[..|items| - 1], name);
      var last := items[|items| - 1];
      if last.Setting? && last.name == name then before + [last.value] else before
  }

  lemma {:induction false} NoSeparatorIsOnePiece(s: string, separator: char)
    requires separator !in s
    ensures SplitOn(s, separator) == [s]
  {
    if s != "" {
      assert s[|s| - 1] in s && forall c :: c in s[..|s| - 1] ==> c in s;
      NoSeparatorIsOnePiece(s[..|s| - 1], separator);
      assert s == s[..|s| - 1] + [s[|s| - 1]];
    }
  }

  lemma {:induction false} PlainPieces(values: seq<string>)
    requires forall v :: v in values ==> SEPARATOR !in v
    ensures Pieces(values) == values
  {
    if values != [] {
      assert values[|values| - 1] in values && forall v :: v in values[..|values| - 1] ==> v in values;
      PlainPieces(values[..|values| - 1]);
      NoSeparatorIsOnePiece(values[|values| - 1], SEPARATOR);
      assert values == values[..|values| - 1] + [values[|values| - 1]];
    }
  }

  /** Leaving out the empty values leaves out nothing else. */
  lemma {:induction false} NonEmptyKeepsRest(values: seq<string>)
    ensures forall v :: v in NonEmpty(values) <==> v in values && v != ""
    ensures "" !in values ==> NonEmpty(values) == values
  {
    if values != [] {
      var init, last := values[..|values| - 1], values[|values| - 1];
      NonEmptyKeepsRest(init);
      assert values == init + [last];
    }
  }

  lemma {:induction false} NonEmptyConcat(a: seq<string>, b: seq<string>)
    ensures NonEmpty(a + b) == NonEmpty(a) + NonEmpty(b)
  {
    if b == [] {
      assert a + b == a && NonEmpty(b) == [];
    } else {
      var n := |b| - 1;
      NonEmptyConcat(a, b[..n]);
      assert (a + b)[..|a + b| - 1] == a + b[..n];
      if b[n] != "" {
        assert NonEmpty(a) + (NonEmpty(b[..n]) + [b[n]]) == NonEmpty(a) + NonEmpty(b[..n]) + [b[n]];
      }
    }
  }

  lemma {:induction false} NeverBareCollectsAll(items: seq<Item>)
    requires Switch(REPEATABLE) !in items
    ensures Collected(items) == SettingsOf(items, REPEATABLE)
  {
    if items != [] {
      assert items[|items| - 1] in items && forall i :: i in items[..|items| - 1] ==> i in items;
      NeverBareCollectsAll(items[..|items| - 1]);
    }
  }

  /** When the repeatable flag always has a value, and no value contains the
      separator, it reads back as exactly its non-empty values, in order. */
  lemma PlainValuesReadBack(argv: seq<string>, booleans: set<string>)
    requires Switch(REPEATABLE) !in Items(ReadAll(argv), booleans)
    requires forall v :: v in SettingsOf(Items(ReadAll(argv), booleans), REPEATABLE) ==> SEPARATOR !in v
    ensures GetRepeatedStringFlag(Meaning(argv, booleans).flags, REPEATABLE) ==
            NonEmpty(SettingsOf(Items(ReadAll(argv), booleans), REPEATABLE))
    ensures "" !in SettingsOf(Items(ReadAll(argv), booleans), REPEATABLE) ==>
            GetRepeatedStringFlag(Meaning(argv, booleans).flags, REPEATABLE) == SettingsOf(Items(ReadAll(argv), booleans), REPEATABLE)
  {
    var items := Items(ReadAll(argv), booleans);
    NeverBareCollectsAll(items);
    RepeatedFlagReadsBack(items);
    PlainPieces(Collected(items));
    NonEmptyKeepsRest(SettingsOf(items, REPEATABLE));
  }

  // ------------------------------------------------------- What the flags hold

  predicate Sets(item: Item, name: string) {
    !item.Word? && item.name == name
  }

  /** No item from `i` on is about the flag. */
  predicate Unset(items: seq<Item>, name: string, i: nat) {
    forall j :: i <= j < |items| ==> !Sets(items[j], name)
  }

  lemma FlagAfter(flags: map<string, FlagValue>, item: Item, name: string)
    ensures !Sets(item, name) ==> (name in SetFlag(flags, item) <==> name in flags) &&
                                  (name in flags ==> SetFlag(flags, item)[name] == flags[name])
    ensures item == Switch(name) ==> name in SetFlag(flags, item) && SetFlag(flags, item)[name] == Bare
    ensures item.Setting? && item.name == name ==>
              name in SetFlag(flags, item) && SetFlag(flags, item)[name].Text? &&
              (name != "label" || name !in flags || flags[name] == Bare ==> SetFlag(flags, item)[name] == Text(item.value))
  {
  }

  lemma {:induction false} NeverGiven(items: seq<Item>, name: string)
    requires Unset(items, name, 0)
    ensures name !in Flags(items)
  {
    if items != [] {
      NeverGiven(items[..|items| - 1], name);
      FlagAfter(Flags(items[..|items| - 1]), items[|items| - 1], name);
    }
  }

  /** A flag is there just when it is given, and the last time decides, except that a
      value of the repeatable flag is joined to those before it. */
  lemma {:induction false} LastOneWins(items: seq<Item>, name: string, i: nat)
    requires i < |items| && Sets(items[i], name) && Unset(items, name, i + 1)
    ensures name in Flags(items)
    ensures items[i].Switch? ==> Flags(items)[name] == Bare
    ensures items[i].Setting? ==> Flags(items)[name].Text? && (name != "label" ==> Flags(items)[name] == Text(items[i].value))
  {
    hide SetFlag;
    var n := |items| - 1;
    FlagAfter(Flags(items[..n]), items[n], name);
    if i < n {
      assert Unset(items[..n], name, i + 1) && !Sets(items[n], name);
      LastOneWins(items[..n], name, i);
    }
  }

  lemma NoWords()
    ensures Words([]) == []
  {
  }

  lemma {:induction false} WordsConcat(a: seq<Item>, b: seq<Item>)
    ensures Words(a + b) == Words(a) + Words(b)
  {
    hide Words, Flags;
    if b == [] {
      assert a + b == a;
      NoWords();
    } else {
      var init, last := b[..|b| - 1], b[|b| - 1];
      WordsConcat(a, init);
      assert a + b == a + init + [last] && b == init + [last];
      OneMoreItem(a + init, last);
      OneMoreItem(init, last);
      if last.Word? {
        assert Words(a) + Words(init) + [last.word] == Words(a) + (Words(init) + [last.word]);
      }
    }
  }

  /** Arguments none of which is a flag are the words of the command, in order. */
  lemma {:induction false} PlainWords(argv: seq<string>, booleans: set<string>)
    requires forall i :: 0 <= i < |argv| ==> !IsFlag(argv[i])
    ensures Meaning(argv, booleans) == Parsed(argv, map[])
  {
    var items := seq(|argv|, i requires 0 <= i < |argv| => Word(argv[i]));
    RenderedWords(argv, items);
    RenderingReadsBack(items, booleans);
    WordsOnly(argv, items);
  }

  lemma RenderedWords(argv: seq<string>, items: seq<Item>)
    requires |items| == |argv| && forall i :: 0 <= i < |argv| ==> items[i] == Word(argv[i]) && !IsFlag(argv[i])
    ensures Render(items) == argv && Clean(items)
  {
  }

  lemma {:induction false} WordsOnly(argv: seq<string>, items: seq<Item>)
    requires |items| == |argv| && forall i :: 0 <= i < |argv| ==> items[i] == Word(argv[i])
    ensures Words(items) == argv && Flags(items) == map[]
  {
    if argv != [] {
      var n := |argv| - 1;
      WordsOnly(argv[..n], items[..n]);
      assert argv == argv[..n] + [argv[n]];
    }
  }

  // ------------------------------------------------------------- Round trip

  function RenderItem(item: Item): string {
    match item
    case Word(word) => word
    case Switch(name) => "--" + name
    case Setting(name, value) => "--" + (name + "=" + value)
  }

  /** A command line that says the items, one argument each. */
  function Render(items: seq<Item>): seq<string> {
    seq(|items|, i requires 0 <= i < |items| => RenderItem(items[i]))
  }

  /** No word looks like a flag, and no flag's name has a `=`. */
  predicate Clean(items: seq<Item>) {
    forall i :: 0 <= i < |items| ==> if items[i].Word? then !IsFlag(items[i].word) else '=' !in items[i].name
  }

  /** A flag that takes a value is given none, and a word follows it. */
  predicate Swallows(items: seq<Item>, booleans: set<string>, i: nat) {
    i + 1 < |items| && items[i].Switch? && items[i].name !in booleans && items[i + 1].Word?
  }

  function TokenOf(item: Item): Token {
    match item
    case Word(word) => Plain(word)
    case Switch(name) => Flag(name)
    case Setting(name, value) => Assigned(name, value)
  }

  lemma RenderedItemReads(item: Item)
    requires if item.Word? then !IsFlag(item.word) else '=' !in item.name
    ensures Read(RenderItem(item)) == TokenOf(item)
  {
    match item
    case Word(word) =>
    case Switch(name) => assert ("--" + name)[2..] == name;
    case Setting(name, value) => ReadAssigned(name, value);
  }

  lemma RenderedReads(items: seq<Item>)
    requires Clean(items)
    ensures var tokens := ReadAll(Render(items)); |tokens| == |items| && forall i :: 0 <= i < |items| ==> tokens[i] == TokenOf(items[i])
  {
    hide Read, RenderItem, TokenOf;
    forall i | 0 <= i < |items|
      ensures Read(RenderItem(items[i])) == TokenOf(items[i])
    {
      RenderedItemReads(items[i]);
    }
  }

  lemma TakesIffSwallows(tokens: seq<Token>, items: seq<Item>, booleans: set<string>, i: nat)
    requires |tokens| == |items| && (forall k :: 0 <= k < |items| ==> tokens[k] == TokenOf(items[k])) && i < |items|
    ensures TakesValue(tokens, booleans, i) <==> Swallows(items, booleans, i)
    ensures !Swallows(items, booleans, i) ==> ItemAt(tokens, booleans, i) == items[i]
  {
  }

  lemma {:induction false} ItemsReadBack(tokens: seq<Token>, items: seq<Item>, booleans: set<string>, i: nat)
    requires |tokens| == |items| && forall k :: 0 <= k < |items| ==> tokens[k] == TokenOf(items[k])
    requires i <= |items| && forall k :: i <= k < |items| ==> !Swallows(items, booleans, k)
    ensures Items(tokens[i..], booleans) == items[i..]
    decreases |items| - i
  {
    hide Swallows, TokenOf, ItemAt;
    if i < |items| {
      TakesIffSwallows(tokens, items, booleans, i);
      ItemsFrom(tokens, booleans, i);
      ItemsReadBack(tokens, items, booleans, i + 1);
      assert items[i..] == [items[i]] + items[i + 1..];
    }
  }

  /** Every item takes a token, and one that swallows the next takes two. */
  lemma {:induction false} SwallowingIsShorter(tokens: seq<Token>, booleans: set<string>, i: nat)
    requires i <= |tokens|
    ensures |Items(tokens[i..], booleans)| <= |tokens| - i
    ensures (exists k :: i <= k < |tokens| && TakesValue(tokens, booleans, k)) ==> |Items(tokens[i..], booleans)| < |tokens| - i
    decreases |tokens| - i
  {
    hide ItemAt;
    if i < |tokens| {
      ItemsFrom(tokens, booleans, i);
      SwallowingIsShorter(tokens, booleans, After(tokens, booleans, i));
    }
  }

  /** Saying items and reading them back gives the same items exactly when no flag that
      takes a value is followed by a word without having one. */
  lemma RenderingReadsBackIff(items: seq<Item>, booleans: set<string>)
    requires Clean(items)
    ensures Items(ReadAll(Render(items)), booleans) == items <==> forall i :: 0 <= i < |items| ==> !Swallows(items, booleans, i)
  {
    hide TakesValue, Swallows, Items;
    var tokens := ReadAll(Render(items));
    RenderedReads(items);
    assert tokens[0..] == tokens && items[0..] == items;
    if forall i :: 0 <= i < |items| ==> !Swallows(items, booleans, i) {
      ItemsReadBack(tokens, items, booleans, 0);
    } else {
      var i :| 0 <= i < |items| && Swallows(items, booleans, i);
      TakesIffSwallows(tokens, items, booleans, i);
      SwallowingIsShorter(tokens, booleans, 0);
    }
  }

  /** The parser then finds the words and flags that the items say. */
  lemma RenderingReadsBack(items: seq<Item>, booleans: set<string>)
    requires Clean(items) && forall i :: 0 <= i < |items| ==> !Swallows(items, booleans, i)
    ensures Meaning(Render(items), booleans) == Parsed(Words(items), Flags(items))
  {
    RenderingReadsBackIff(items, booleans);
  }
}
