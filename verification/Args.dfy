/** parseArgs of cmd/p2pget/main.go, over the FlagSet of Go's flag package (ExitOnError, as the commands create it). */
module Args {
  import opened Basics

  /** A registered flag: whether it is boolean, and which texts its Set accepts. */
  datatype Flag = Flag(isBool: bool, accepts: string -> bool)

  type Spec = map<string, Flag>

  /** What one call of parseOne does with the arguments. */
  datatype Step = Stop(rest: seq<string>) | Set(name: string, value: string, rest: seq<string>) | Fail

  predicate IsPlain(s: string) {
    |s| < 2 || s[0] != '-'
  }

  /** A flag token without its dashes. */
  function Undashed(s: string): string
    requires !IsPlain(s) && s != "--"
  {
    if s[1] == '-' then s[2..] else s[1..]
  }

  /** The place of the first '=' after the first rune, or the length. */
  function EqualsAt(name: string, from: nat): (i: nat)
    requires from <= |name|
    ensures from <= i <= |name| && '=' !in name[from..i] && (i < |name| ==> name[i] == '=')
    decreases |name| - from
  {
    if from == |name| || name[from] == '=' then from
    else
      var i := EqualsAt(name, from + 1);
      assert name[from..i] == [name[from]] + name[from + 1..i];
      i
  }

  function SetIf(ok: bool, name: string, value: string, rest: seq<string>): Step {
    if ok then Set(name, value, rest) else Fail
  }

  function ParseFlag(spec: Spec, name: string, value: Option<string>, rest: seq<string>): Step {
    if name !in spec then Fail
    else if spec[name].isBool then
      if value.Some? then SetIf(spec[name].accepts(value.value), name, value.value, rest)
      else SetIf(spec[name].accepts("true"), name, "true", rest)
    else if value.Some? then SetIf(spec[name].accepts(value.value), name, value.value, rest)
    else if rest != [] then SetIf(spec[name].accepts(rest[0]), name, rest[0], rest[1..])
    else Fail
  }

  function ParseOne(spec: Spec, args: seq<string>): (step: Step)
    ensures step.Set? ==> |step.rest| < |args|
    ensures step.Stop? ==> |step.rest| <= |args|
  {
    if args == [] || IsPlain(args[0]) then Stop(args)
    else if args[0] == "--" then Stop(args[1..])
    else
      var name := Undashed(args[0]);
      if name == "" || name[0] == '-' || name[0] == '=' then Fail
      else
        var i := EqualsAt(name, 1);
        if i < |name| then ParseFlag(spec, name[..i], Some(name[i + 1..]), args[1..])
        else ParseFlag(spec, name, None, args[1..])
  }

  /** The flag values set so far, by name. */
  type Values = map<string, string>

  datatype Outcome = Exit | Parsed(rest: seq<string>, values: Values)

  /** FlagSet.Parse: flags up to the first token that is none. */
  function FlagsParsed(spec: Spec, args: seq<string>, values: Values): (r: Outcome)
    ensures r.Parsed? ==> |r.rest| <= |args|
    decreases |args|
  {
    match ParseOne(spec, args)
    case Fail => Exit
    case Stop(rest) => Parsed(rest, values)
    case Set(name, value, rest) => FlagsParsed(spec, rest, values[name := value])
  }

  /** parseArgs: the positionals, and the flag values it leaves. */
  function ParseAll(spec: Spec, args: seq<string>, values: Values): Outcome
    decreases |args|
  {
    match FlagsParsed(spec, args, values)
    case Exit => Exit
    case Parsed(rest, vs) =>
      if rest == [] then Parsed([], vs)
      else
        match ParseAll(spec, rest[1..], vs)
        case Exit => Exit
        case Parsed(more, all) => Parsed([rest[0]] + more, all)
  }

  class FlagSet {
    const formal: Spec
    var actual: Values
    var args: seq<string>

    constructor (formal: Spec)
      ensures this.formal == formal && actual == map[] && args == []
    {
      this.formal, actual, args := formal, map[], [];
    }

    /** `exited` stands for the os.Exit of a FlagSet created with ExitOnError. */
    method Parse(arguments: seq<string>) returns (exited: bool)
      modifies this
      ensures exited <==> FlagsParsed(formal, arguments, old(actual)).Exit?
      ensures !exited ==> Parsed(args, actual) == FlagsParsed(formal, arguments, old(actual))
      ensures !exited ==> |args| <= |arguments|
    {
      args := arguments;
      while true
        invariant FlagsParsed(formal, args, actual) == FlagsParsed(formal, arguments, old(actual))
        invariant |args| <= |arguments|
        decreases |args|
      {
        match ParseOne(formal, args) {
          case Fail =>
            return true;
          case Stop(rest) =>
            args := rest;
            return false;
          case Set(name, value, rest) =>
            args := rest;
            actual := actual[name := value];
        }
      }
    }
  }

  method ParseArgs(fs: FlagSet, arguments: seq<string>) returns (exited: bool, positionals: seq<string>)
    modifies fs
    ensures exited <==> ParseAll(fs.formal, arguments, old(fs.actual)).Exit?
    ensures !exited ==> Parsed(positionals, fs.actual) == ParseAll(fs.formal, arguments, old(fs.actual))
  {
    var args := arguments;
    positionals := [];
    ghost var whole := ParseAll(fs.formal, arguments, fs.actual);
    while true
      invariant whole == match ParseAll(fs.formal, args, fs.actual)
                         case Exit => Exit
                         case Parsed(more, all) => Parsed(positionals + more, all)
      decreases |args|
    {
      exited := fs.Parse(args);
      if exited {
        return;
      }
      var rest := fs.args;
      if |rest| == 0 {
        break;
      }
      positionals := positionals + [rest[0]];
      args := rest[1..];
    }
  }

  // ---------------- what an argument list means ----------------

  /** The ways to write arguments; a flag may have one dash or two. */
  datatype Item =
    | Positional(text: string)
    | Switch(double: bool, name: string)
    | Assigned(double: bool, name: string, value: string)
    | Valued(double: bool, name: string, value: string)
    | Escaped(text: string)

  function Dashed(double: bool, s: string): string {
    if double then "--" + s else "-" + s
  }

  function Tokens(item: Item): seq<string> {
    match item
    case Positional(text) => [text]
    case Switch(double, name) => [Dashed(double, name)]
    case Assigned(double, name, value) => [Dashed(double, name + ("=" + value))]
    case Valued(double, name, value) => [Dashed(double, name), value]
    case Escaped(text) => ["--", text]
  }

  function Rendered(items: seq<Item>): seq<string> {
    if items == [] then [] else Tokens(items[0]) + Rendered(items[1..])
  }

  predicate IsName(name: string) {
    name != "" && name[0] != '-' && '=' !in name
  }

  predicate WellFormed(spec: Spec, item: Item) {
    match item
    case Positional(text) => IsPlain(text)
    case Switch(_, name) =>
      IsName(name) && name in spec && spec[name].isBool && spec[name].accepts("true")
    case Assigned(_, name, value) =>
      IsName(name) && name in spec && spec[name].accepts(value)
    case Valued(_, name, value) =>
      IsName(name) && name in spec && !spec[name].isBool && spec[name].accepts(value)
    case Escaped(_) => true
  }

  predicate AllWellFormed(spec: Spec, items: seq<Item>) {
    forall i :: 0 <= i < |items| ==> WellFormed(spec, items[i])
  }

  predicate IsFlag(item: Item) {
    item.Switch? || item.Assigned? || item.Valued?
  }

  /** The positional texts in order. */
  function Positionals(items: seq<Item>): seq<string> {
    if items == [] then []
    else (if IsFlag(items[0]) then [] else [items[0].text]) + Positionals(items[1..])
  }

  /** The flag items in order. */
  function Flags(items: seq<Item>): seq<Item> {
    if items == [] then []
    else (if IsFlag(items[0]) then [items[0]] else []) + Flags(items[1..])
  }

  function Applied(values: Values, item: Item): Values
    requires IsFlag(item)
  {
    values[item.name := if item.Switch? then "true" else item.value]
  }

  /** The values after setting the flags one after the other, the last one winning. */
  function Settings(values: Values, items: seq<Item>): Values
    decreases |items|
  {
    if items == [] then values
    else Settings(if IsFlag(items[0]) then Applied(values, items[0]) else values, items[1..])
  }

  lemma Undashes(double: bool, s: string)
    requires s != "" && s[0] != '-'
    ensures !IsPlain(Dashed(double, s)) && Dashed(double, s) != "--" && Undashed(Dashed(double, s)) == s
  {
    var d := Dashed(double, s);
    assert if double then d[1] == '-' && d[2..] == s && |d| > 2 else d[1] == s[0] && d[1..] == s;
  }

  lemma {:induction false} EqualsAfter(name: string, after: string, from: nat)
    requires from <= |name| && '=' !in name && (after == "" || after[0] == '=')
    ensures EqualsAt(name + after, from) == |name|
    decreases |name| - from
  {
    if from < |name| {
      assert (name + after)[from] == name[from] && name[from] in name;
      EqualsAfter(name, after, from + 1);
    }
  }

  /** A flag token with nothing, or "=" and a value, after its name. */
  lemma FlagToken(spec: Spec, double: bool, name: string, after: string, rest: seq<string>)
    requires IsName(name) && (after == "" || after[0] == '=')
    ensures ParseOne(spec, [Dashed(double, name + after)] + rest) ==
            ParseFlag(spec, name, if after == "" then None else Some(after[1..]), rest)
  {
    var whole := name + after;
    var args := [Dashed(double, whole)] + rest;
    assert whole[0] == name[0] && name[0] in name;
    Undashes(double, whole);
    EqualsAfter(name, after, 1);
    assert whole[..|name|] == name;
    assert whole[|name|..] == after;
    if after == "" {
      assert whole == name;
    } else {
      assert whole[|name| + 1..] == after[1..];
    }
    assert args[1..] == rest;
  }

  /** One flag item is taken off the front of the arguments. */
  lemma FlagParsed(spec: Spec, item: Item, rest: seq<string>)
    requires WellFormed(spec, item) && IsFlag(item)
    ensures ParseOne(spec, Tokens(item) + rest) ==
            Set(item.name, if item.Switch? then "true" else item.value, rest)
  {
    match item
    case Switch(double, name) =>
      FlagToken(spec, double, name, "", rest);
      assert name + "" == name;
    case Assigned(double, name, value) =>
      AssignmentParsed(spec, double, name, value, rest);
    case Valued(double, name, value) =>
      ValueParsed(spec, double, name, value, rest);
  }

  lemma AssignmentParsed(spec: Spec, double: bool, name: string, value: string, rest: seq<string>)
    requires WellFormed(spec, Assigned(double, name, value))
    ensures ParseOne(spec, [Dashed(double, name + ("=" + value))] + rest) == Set(name, value, rest)
  {
    var after := "=" + value;
    FlagToken(spec, double, name, after, rest);
    assert after[1..] == value;
  }

  lemma ValueParsed(spec: Spec, double: bool, name: string, value: string, rest: seq<string>)
    requires WellFormed(spec, Valued(double, name, value))
    ensures ParseOne(spec, [Dashed(double, name), value] + rest) == Set(name, value, rest)
  {
    var more := [value] + rest;
    FlagToken(spec, double, name, "", more);
    assert name + "" == name && more[1..] == rest;
    assert [Dashed(double, name), value] + rest == [Dashed(double, name)] + more;
  }

  function Prepended(text: string, o: Outcome): Outcome {
    match o case Exit => Exit case Parsed(more, vs) => Parsed([text] + more, vs)
  }

  /** What the first item contributes. */
  lemma FrontParsed(spec: Spec, item: Item, rest: seq<string>, values: Values)
    requires WellFormed(spec, item)
    ensures ParseAll(spec, Tokens(item) + rest, values) ==
            if IsFlag(item) then ParseAll(spec, rest, Applied(values, item))
            else Prepended(item.text, ParseAll(spec, rest, values))
  {
    var args := Tokens(item) + rest;
    if IsFlag(item) {
      FlagParsed(spec, item, rest);
    } else if item.Positional? {
      assert args[1..] == rest && args[0] == item.text;
      assert FlagsParsed(spec, args, values) == Parsed(args, values);
    } else {
      assert args[0] == "--" && args[1..] == [item.text] + rest;
      assert FlagsParsed(spec, args, values) == Parsed([item.text] + rest, values);
      assert ([item.text] + rest)[1..] == rest;
    }
  }

  function Dangling(dangling: bool): seq<string> {
    if dangling then ["--"] else []
  }

  /**
   * Interleave flags and positionals as you like: every token is consumed once, the positionals come out in order and
   * the flags are set in order. A "--" makes the one token after it positional, and a final one is dropped.
   */
  lemma {:induction false} ParsesItems(spec: Spec, items: seq<Item>, values: Values, dangling: bool)
    requires AllWellFormed(spec, items)
    ensures ParseAll(spec, Rendered(items) + Dangling(dangling), values) ==
            Parsed(Positionals(items), Settings(values, items))
    decreases |items|
  {
    if items == [] {
      assert Rendered(items) + Dangling(dangling) == Dangling(dangling);
    } else {
      var item, rest := items[0], Rendered(items[1..]) + Dangling(dangling);
      assert Rendered(items) + Dangling(dangling) == Tokens(item) + rest;
      FrontParsed(spec, item, rest, values);
      ParsesItems(spec, items[1..], if IsFlag(item) then Applied(values, item) else values, dangling);
    }
  }

  /**
   * Lists with the same positionals in the same order, and the same flags in the same order, mean the same, and the
   * flags alone leave the same values.
   */
  lemma OrderInsensitive(spec: Spec, a: seq<Item>, b: seq<Item>, values: Values)
    requires AllWellFormed(spec, a) && AllWellFormed(spec, b)
    requires Positionals(a) == Positionals(b) && Flags(a) == Flags(b)
    ensures ParseAll(spec, Rendered(a), values) == ParseAll(spec, Rendered(b), values)
    ensures ParseAll(spec, Rendered(a), values).Parsed?
    ensures ParseAll(spec, Rendered(Flags(a)), values) == Parsed([], ParseAll(spec, Rendered(a), values).values)
  {
    FlagsKept(spec, a);
    SettingsOfFlags(values, a);
    SettingsOfFlags(values, b);
    ParsesUnescaped(spec, a, values);
    ParsesUnescaped(spec, b, values);
    ParsesUnescaped(spec, Flags(a), values);
  }

  lemma ParsesUnescaped(spec: Spec, items: seq<Item>, values: Values)
    requires AllWellFormed(spec, items)
    ensures ParseAll(spec, Rendered(items), values) == Parsed(Positionals(items), Settings(values, items))
  {
    ParsesItems(spec, items, values, false);
    assert Rendered(items) + [] == Rendered(items);
  }

  lemma {:induction false} SettingsOfFlags(values: Values, items: seq<Item>)
    ensures Settings(values, Flags(items)) == Settings(values, items)
    decreases |items|
  {
    if items != [] {
      var next := if IsFlag(items[0]) then Applied(values, items[0]) else values;
      SettingsOfFlags(next, items[1..]);
      if IsFlag(items[0]) {
        assert Flags(items)[1..] == Flags(items[1..]);
      } else {
        assert Flags(items) == Flags(items[1..]);
      }
    }
  }

  lemma {:induction false} FlagsKept(spec: Spec, items: seq<Item>)
    requires AllWellFormed(spec, items)
    ensures AllWellFormed(spec, Flags(items)) && Positionals(Flags(items)) == []
  {
    if items != [] {
      FlagsKept(spec, items[1..]);
      if IsFlag(items[0]) {
        assert Flags(items)[1..] == Flags(items[1..]);
      } else {
        assert Flags(items) == Flags(items[1..]);
      }
    }
  }

  lemma DashedBack(s: string)
    requires !IsPlain(s) && s != "--"
    ensures s == Dashed(s[1] == '-', Undashed(s))
  { }

  lemma SplitAtEquals(name: string, i: nat)
    requires i < |name| && name[i] == '='
    ensures name == name[..i] + ("=" + name[i + 1..])
  {
    assert name == name[..i] + [name[i]] + name[i + 1..];
  }

  lemma NameBefore(name: string, i: nat)
    requires 1 <= i <= |name| && name[0] != '-' && name[0] != '=' && '=' !in name[1..i]
    ensures IsName(name[..i])
  {
    assert name[..i] == [name[0]] + name[1..i];
  }

  lemma AssignedItem(args: seq<string>, double: bool, name: string, i: nat) returns (item: Item)
    requires args != [] && args[0] == Dashed(double, name) && i < |name| && name[i] == '='
    ensures item == Assigned(double, name[..i], name[i + 1..]) && args == Tokens(item) + args[1..]
  {
    SplitAtEquals(name, i);
    item := Assigned(double, name[..i], name[i + 1..]);
  }

  lemma NamedItem(args: seq<string>, double: bool, name: string, isBool: bool) returns (item: Item)
    requires args != [] && args[0] == Dashed(double, name) && (isBool || |args| > 1)
    ensures item == (if isBool then Switch(double, name) else Valued(double, name, args[1]))
    ensures args == Tokens(item) + if isBool then args[1..] else args[1..][1..]
  {
    item := if isBool then Switch(double, name) else Valued(double, name, args[1]);
  }

  /** The item that a flag token, and its value if it takes the next token, amounts to. */
  lemma FlagItem(spec: Spec, args: seq<string>) returns (item: Item)
    requires ParseOne(spec, args).Set?
    ensures WellFormed(spec, item) && IsFlag(item) && args == Tokens(item) + ParseOne(spec, args).rest
  {
    var double, name := args[0][1] == '-', Undashed(args[0]);
    DashedBack(args[0]);
    var i := EqualsAt(name, 1);
    NameBefore(name, i);
    if i < |name| {
      item := AssignedItem(args, double, name, i);
    } else {
      assert name[..i] == name;
      item := NamedItem(args, double, name, spec[name].isBool);
    }
  }

  /** The item at the front of arguments that do not end the program. */
  lemma FrontItem(spec: Spec, args: seq<string>, values: Values) returns (item: Item, rest: seq<string>)
    requires ParseAll(spec, args, values).Parsed? && args != [] && args != ["--"]
    ensures WellFormed(spec, item) && args == Tokens(item) + rest && |rest| < |args|
    ensures ParseAll(spec, rest, if IsFlag(item) then Applied(values, item) else values).Parsed?
  {
    var step := ParseOne(spec, args);
    if step.Set? {
      item := FlagItem(spec, args);
      rest := step.rest;
    } else {
      item := if IsPlain(args[0]) then Positional(args[0]) else Escaped(args[1]);
      rest := if IsPlain(args[0]) then args[1..] else args[2..];
    }
    assert args == Tokens(item) + rest;
    FrontParsed(spec, item, rest, values);
  }

  /** And nothing else is accepted: a list that does not end the program is made of such items. */
  lemma {:induction false} AcceptsOnlyItems(spec: Spec, args: seq<string>, values: Values)
    returns (items: seq<Item>, dangling: bool)
    requires ParseAll(spec, args, values).Parsed?
    ensures AllWellFormed(spec, items) && args == Rendered(items) + Dangling(dangling)
    decreases |args|
  {
    if args == [] || args == ["--"] {
      items, dangling := [], args != [];
    } else {
      var item, rest := FrontItem(spec, args, values);
      var more;
      more, dangling := AcceptsOnlyItems(spec, rest, if IsFlag(item) then Applied(values, item) else values);
      items := [item] + more;
      assert Rendered(items) == Tokens(item) + Rendered(more);
    }
  }
}
