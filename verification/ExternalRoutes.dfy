/** Which command-line arguments belong to the root command and which to an external subcommand. */
module ExternalRoutes {
  import opened Wrappers
  import opened Strings

  /** An argument that is not Unicode is only passed on. */
  datatype Arg = Text(text: string) | Raw(bytes: seq<bv8>)

  type Environment = seq<(string, Arg)>

  datatype Parsed = Parsed(arguments: seq<Arg>, environment: Environment)

  datatype Route = Route(name: string, arguments: seq<Arg>, environment: Environment)

  const FORBIDDEN := ["--token", "--supabase-key"]

  const VALUE_OPTIONS := [
    ("--registry", "ZED_PKG_REGISTRY"), ("--home", "ZED_PKG_HOME"), ("--auth-url", "ZED_PKG_AUTH_URL"),
    ("--supabase-url", "ZED_PKG_SUPABASE_URL"), ("--global-bin-dir", "ZED_PKG_GLOBAL_BIN_DIR")]

  const BOOLEAN_OPTIONS := [
    ("--interactive", "ZED_PKG_INTERACTIVE"), ("--git-submodules", "ZED_PKG_GIT_SUBMODULES")]

  // ---------- Recognizing options ----------

  /** The part after `option=`. */
  function Inline(option: string, token: string): Option<string> {
    if HasPrefix(token, option + "=") then Some(token[|option| + 1..]) else None
  }

  predicate IsForbidden(options: seq<string>, token: string) {
    options != [] && (token == options[0] || Inline(options[0], token).Some? || IsForbidden(options[1..], token))
  }

  /** The variable an option stands for, and its value if the token holds one. */
  function ValueOption(options: seq<(string, string)>, token: string): Option<(string, Option<string>)> {
    if options == [] then None
    else
      var (option, key) := options[0];
      if token == option then Some((key, None))
      else if Inline(option, token).Some? then Some((key, Inline(option, token)))
      else ValueOption(options[1..], token)
  }

  function TrimDashes(s: string): string {
    if s != "" && s[0] == '-' then TrimDashes(s[1..]) else s
  }

  function Negative(option: string): string {
    "--no-" + TrimDashes(option)
  }

  function Lower(s: string): string {
    seq(|s|, i requires 0 <= i < |s| => if 'A' <= s[i] <= 'Z' then s[i] - 'A' + 'a' else s[i])
  }

  function NormalizeBoolean(value: string): Option<string> {
    var v := Lower(Trim(value));
    if v in {"true", "1", "yes", "on"} then Some("true")
    else if v in {"false", "0", "no", "off"} then Some("false")
    else None
  }

  function BooleanOption(options: seq<(string, string)>, token: string): Option<(string, string)> {
    if options == [] then None
    else
      var (option, key) := options[0];
      if token == option then Some((key, "true"))
      else if token == Negative(option) then Some((key, "false"))
      else if Inline(option, token).Some? && NormalizeBoolean(Inline(option, token).value).Some? then
        Some((key, NormalizeBoolean(Inline(option, token).value).value))
      else BooleanOption(options[1..], token)
  }

  predicate IsBooleanSpelling(options: seq<(string, string)>, token: string) {
    && options != []
    && var option := options[0].0;
       || token == option || token == Negative(option) || Inline(option, token).Some?
       || IsBooleanSpelling(options[1..], token)
  }

  datatype Token =
    | Refused                                     // forbidden, or a misspelt boolean
    | Setting(key: string, inline: Option<string>)
    | Switch(key: string, value: string)
    | Word

  function Classify(token: string): Token {
    if IsForbidden(FORBIDDEN, token) then Refused
    else match ValueOption(VALUE_OPTIONS, token)
      case Some((key, inline)) => Setting(key, inline)
      case None =>
        match BooleanOption(BOOLEAN_OPTIONS, token)
        case Some((key, value)) => Switch(key, value)
        case None => if IsBooleanSpelling(BOOLEAN_OPTIONS, token) then Refused else Word
  }

  // ---------- The arguments after the name ----------

  function With(setting: (string, Arg), rest: Option<Parsed>): Option<Parsed> {
    match rest
    case Some(p) => Some(Parsed(p.arguments, [setting] + p.environment))
    case None => None
  }

  function Keeping(arg: Arg, rest: Option<Parsed>): Option<Parsed> {
    match rest
    case Some(p) => Some(Parsed([arg] + p.arguments, p.environment))
    case None => None
  }

  /** How many arguments an option at the front takes, and what it sets. */
  function Leading(args: seq<Arg>): (r: Option<(nat, (string, Arg))>)
    ensures r.Some? ==> 1 <= r.value.0 <= |args| && args[0].Text? && args[0].text != "--"
  {
    if args == [] || args[0].Raw? || args[0].text == "--" then None
    else match Classify(args[0].text)
      case Setting(key, Some(value)) => if value == "" then None else Some((1, (key, Text(value))))
      case Setting(key, None) =>
        if |args| < 2 || args[1] == Text("") || args[1] == Raw([]) then None else Some((2, (key, args[1])))
      case Switch(key, value) => Some((1, (key, Text(value))))
      case _ => None
  }

  /** An argument that is handed on: not an option of the root command in any spelling. */
  predicate Foreign(arg: Arg) {
    arg.Raw? || Classify(arg.text).Word?
  }

  function Extract(args: seq<Arg>): Option<Parsed> {
    if args == [] then Some(Parsed([], []))
    else if args[0] == Text("--") then Some(Parsed(args, []))
    else match Leading(args)
      case Some((n, setting)) => With(setting, Extract(args[n..]))
      case None => if Foreign(args[0]) then Keeping(args[0], Extract(args[1..])) else None
  }

  method ExtractRootOptions(args: seq<Arg>) returns (r: Option<Parsed>)
    ensures r == Extract(args)
  {
    var arguments: seq<Arg>, environment: Environment := [], [];
    var index := 0;
    AfterNothing(args);
    while index < |args|
      invariant 0 <= index <= |args|
      invariant Extract(args) == After(arguments, environment, Extract(args[index..]))
    {
      ExtractStep(arguments, environment, args, index);
      if args[index] == Text("--") {
        return Some(Parsed(arguments + args[index..], environment));
      }
      var setting := Leading(args[index..]);
      if setting.Some? {
        environment := environment + [setting.value.1];
        index := index + setting.value.0;
      } else if Foreign(args[index]) {
        arguments := arguments + [args[index]];
        index := index + 1;
      } else {
        return None;
      }
    }
    assert args[index..] == [] && arguments + [] == arguments && environment + [] == environment;
    r := Some(Parsed(arguments, environment));
  }

  lemma AfterNothing(args: seq<Arg>)
    ensures Extract(args) == After([], [], Extract(args[0..]))
  {
    assert args[0..] == args;
    if Extract(args).Some? {
      var p := Extract(args).value;
      assert [] + p.arguments == p.arguments && [] + p.environment == p.environment;
    }
  }

  lemma ExtractStep(arguments: seq<Arg>, environment: Environment, args: seq<Arg>, index: nat)
    requires index < |args|
    ensures var (rest, here) := (args[index..], After(arguments, environment, Extract(args[index..])));
            if args[index] == Text("--") then here == Some(Parsed(arguments + rest, environment))
            else match Leading(rest)
            case Some((n, setting)) => here == After(arguments, environment + [setting], Extract(args[index + n..]))
            case None =>
              if Foreign(args[index]) then
                here == After(arguments + [args[index]], environment, Extract(args[index + 1..]))
              else here == None
  {
    var rest := args[index..];
    if args[index] == Text("--") {
      assert environment + [] == environment;
    } else {
      match Leading(rest)
      case Some((n, setting)) =>
        assert rest[n..] == args[index + n..];
        AfterWith(arguments, environment, setting, Extract(rest[n..]));
      case None =>
        assert rest[1..] == args[index + 1..];
        AfterKeeping(arguments, environment, args[index], Extract(rest[1..]));
    }
  }

  function After(arguments: seq<Arg>, environment: Environment, rest: Option<Parsed>): Option<Parsed> {
    match rest
    case Some(p) => Some(Parsed(arguments + p.arguments, environment + p.environment))
    case None => None
  }

  lemma AfterWith(arguments: seq<Arg>, environment: Environment, setting: (string, Arg), rest: Option<Parsed>)
    ensures After(arguments, environment, With(setting, rest)) == After(arguments, environment + [setting], rest)
  {
    if rest.Some? {
      assert environment + ([setting] + rest.value.environment) == environment + [setting] + rest.value.environment;
    }
  }

  lemma AfterKeeping(arguments: seq<Arg>, environment: Environment, arg: Arg, rest: Option<Parsed>)
    ensures After(arguments, environment, Keeping(arg, rest)) == After(arguments + [arg], environment, rest)
  {
    if rest.Some? {
      assert arguments + ([arg] + rest.value.arguments) == arguments + [arg] + rest.value.arguments;
    }
  }

  // ---------- What extraction keeps ----------

  predicate Subsequence(s: seq<Arg>, t: seq<Arg>) {
    s == [] || (t != [] && ((s[0] == t[0] && Subsequence(s[1..], t[1..])) || Subsequence(s, t[1..])))
  }

  lemma {:induction false} SubsequenceDrop(s: seq<Arg>, t: seq<Arg>, n: nat)
    requires n <= |t| && Subsequence(s, t[n..])
    ensures Subsequence(s, t)
    decreases n
  {
    if n > 0 {
      assert t[n - 1..][1..] == t[n..];
      SubsequenceDrop(s, t, n - 1);
    } else {
      assert t[0..] == t;
    }
  }

  lemma {:induction false} SubsequenceOfSelf(s: seq<Arg>)
    ensures Subsequence(s, s)
  {
    if s != [] {
      SubsequenceOfSelf(s[1..]);
    }
  }

  /** What is handed on was there, in that order. */
  lemma {:induction false} ExtractKeepsOrder(args: seq<Arg>)
    requires Extract(args).Some?
    ensures Subsequence(Extract(args).value.arguments, args)
  {
    if args == [] {
    } else if args[0] == Text("--") {
      SubsequenceOfSelf(args);
    } else if Leading(args).Some? {
      var n := Leading(args).value.0;
      ExtractKeepsOrder(args[n..]);
      SubsequenceDrop(Extract(args).value.arguments, args, n);
    } else {
      ExtractKeepsOrder(args[1..]);
      assert Extract(args).value.arguments[1..] == Extract(args[1..]).value.arguments;
    }
  }

  /** Where the first `--` is. */
  function Separator(args: seq<Arg>): (k: nat)
    ensures k <= |args| && Text("--") !in args[..k] && (k < |args| ==> args[k] == Text("--"))
  {
    if args == [] || args[0] == Text("--") then 0
    else
      var k := Separator(args[1..]);
      assert args[..k + 1] == [args[0]] + args[1..][..k];
      k + 1
  }

  /** From the first `--` that is handed on, everything is handed on as it stood at the end of the input. */
  lemma {:induction false} VerbatimTail(args: seq<Arg>)
    requires Extract(args).Some?
    ensures var out := Extract(args).value.arguments;
            var tail := out[Separator(out)..];
            |tail| <= |args| && tail == args[|args| - |tail|..]
  {
    if args != [] && args[0] != Text("--") {
      if Leading(args).Some? {
        VerbatimTail(args[Leading(args).value.0..]);
      } else {
        var (out, rest) := (Extract(args).value.arguments, Extract(args[1..]).value.arguments);
        VerbatimTail(args[1..]);
        OneMore(args[0], rest);
        assert out == [args[0]] + rest;
      }
    }
  }

  lemma OneMore(arg: Arg, rest: seq<Arg>)
    requires arg != Text("--")
    ensures Separator([arg] + rest) == Separator(rest) + 1
    ensures ([arg] + rest)[Separator(rest) + 1..] == rest[Separator(rest)..]
    ensures ([arg] + rest)[..Separator(rest) + 1] == [arg] + rest[..Separator(rest)]
  {
  }

  /** No root option is left before it. */
  lemma {:induction false} OnlyForeignBefore(args: seq<Arg>)
    requires Extract(args).Some?
    ensures var out := Extract(args).value.arguments;
            forall arg :: arg in out[..Separator(out)] ==> Foreign(arg)
  {
    if args != [] && args[0] != Text("--") {
      if Leading(args).Some? {
        OnlyForeignBefore(args[Leading(args).value.0..]);
      } else {
        var rest := Extract(args[1..]).value.arguments;
        OnlyForeignBefore(args[1..]);
        OneMore(args[0], rest);
        assert Extract(args).value.arguments == [args[0]] + rest;
      }
    }
  }

  lemma ForeignIsKept(args: seq<Arg>)
    requires args != [] && args[0] != Text("--") && Foreign(args[0])
    ensures Extract(args) == Keeping(args[0], Extract(args[1..]))
  {
  }

  /** Arguments without root options before `--` are left as they are. */
  lemma {:induction false} NothingToExtract(args: seq<Arg>)
    requires forall i :: 0 <= i < Separator(args) ==> Foreign(args[i])
    ensures Extract(args) == Some(Parsed(args, []))
  {
    if args != [] && args[0] != Text("--") {
      var rest := args[1..];
      assert Foreign(args[0]);
      ForeignIsKept(args);
      forall i | 0 <= i < Separator(rest) ensures Foreign(rest[i]) {
        assert rest[i] == args[i + 1];
      }
      NothingToExtract(rest);
      assert args == [args[0]] + rest;
    }
  }

  /** A second extraction finds nothing. */
  lemma {:induction false} ExtractIsIdempotent(args: seq<Arg>)
    requires Extract(args).Some?
    ensures Extract(Extract(args).value.arguments) == Some(Parsed(Extract(args).value.arguments, []))
  {
    OnlyForeignBefore(args);
    var out := Extract(args).value.arguments;
    forall i | 0 <= i < Separator(out) ensures Foreign(out[i]) {
      assert out[i] in out[..Separator(out)];
    }
    NothingToExtract(out);
  }

  // ---------- Routes ----------

  predicate Alphanumeric(c: char) {
    'a' <= c <= 'z' || 'A' <= c <= 'Z' || '0' <= c <= '9'
  }

  predicate ValidName(name: string) {
    || name == "hex.pm"
    || (name != "" && Utf8Length(name) <= 64 && Alphanumeric(name[0])
        && forall c :: c in name ==> Alphanumeric(c) || c in {'-', '_'})
  }

  predicate AsksForHelp(arguments: seq<Arg>) {
    Text("--help") in arguments || Text("-h") in arguments
  }

  function EnsureHelp(arguments: seq<Arg>): (r: seq<Arg>)
    ensures AsksForHelp(r)
    ensures AsksForHelp(arguments) ==> r == arguments
    ensures !AsksForHelp(arguments) ==>
      r == arguments[..Separator(arguments)] + [Text("--help")] + arguments[Separator(arguments)..]
  {
    if AsksForHelp(arguments) then arguments
    else
      var k := Separator(arguments);
      var r := arguments[..k] + [Text("--help")] + arguments[k..];
      assert r[k] == Text("--help");
      r
  }

  /** What follows a name, once its root options are taken out. */
  function Named(name: string, environment: Environment, rest: seq<Arg>, help: bool): Option<Route> {
    if !ValidName(name) then None
    else match Extract(rest)
      case Some(p) =>
        Some(Route(name, if help then EnsureHelp(p.arguments) else p.arguments, environment + p.environment))
      case None => None
  }

  /** The route the arguments after the program name ask for, if they ask for one. */
  function RouteOf(args: seq<Arg>, environment: Environment): Option<Route>
    decreases |args|
  {
    if args == [] || args[0].Raw? || args[0].text in {"--", "--help", "-h", "--version", "-V"} then None
    else match Leading(args)
      case Some((n, setting)) => RouteOf(args[n..], environment + [setting])
      case None =>
        var token := args[0].text;
        if !Classify(token).Word? || HasPrefix(token, "-") then None
        else if token == "help" then
          if |args| < 2 || args[1].Raw? then None else Named(args[1].text, environment, args[2..], true)
        else Named(token, environment, args[1..], false)
  }

  method ExternalRoute(args: seq<Arg>) returns (r: Option<Route>)
    ensures r == if args == [] then None else RouteOf(args[1..], [])
  {
    if args == [] {
      return None;
    }
    var index, environment: Environment := 1, [];
    while index < |args|
      invariant 1 <= index <= |args|
      invariant RouteOf(args[1..], []) == RouteOf(args[index..], environment)
      decreases |args| - index
    {
      var rest := args[index..];
      if args[index].Raw? || args[index].text in {"--", "--help", "-h", "--version", "-V"} {
        return None;
      }
      var setting := Leading(rest);
      if setting.None? {
        r := RouteAt(rest, environment);
        return;
      }
      RouteStep(args, index, environment);
      environment := environment + [setting.value.1];
      index := index + setting.value.0;
    }
    r := None;
  }

  lemma RouteStep(args: seq<Arg>, index: nat, environment: Environment)
    requires index < |args| && args[index].Text? && Leading(args[index..]).Some?
    requires args[index].text !in {"--", "--help", "-h", "--version", "-V"}
    ensures var (n, setting) := Leading(args[index..]).value;
            RouteOf(args[index..], environment) == RouteOf(args[index + n..], environment + [setting])
  {
  }

  /** The loop's last turn: an external name, or `help` and an external name. */
  method RouteAt(args: seq<Arg>, environment: Environment) returns (r: Option<Route>)
    requires args != [] && args[0].Text? && Leading(args).None?
    requires args[0].text !in {"--", "--help", "-h", "--version", "-V"}
    ensures r == RouteOf(args, environment)
  {
    var token := args[0].text;
    if !Classify(token).Word? || HasPrefix(token, "-") {
      return None;
    }
    if token == "help" {
      if |args| < 2 || args[1].Raw? || !ValidName(args[1].text) {
        return None;
      }
      var trailing := ExtractRootOptions(args[2..]);
      if trailing.None? {
        return None;
      }
      var arguments := EnsureHelp(trailing.value.arguments);
      return Some(Route(args[1].text, arguments, environment + trailing.value.environment));
    }
    if !ValidName(token) {
      return None;
    }
    var trailing := ExtractRootOptions(args[1..]);
    if trailing.None? {
      return None;
    }
    r := Some(Route(token, trailing.value.arguments, environment + trailing.value.environment));
  }

  // ---------- Root options before or after the name ----------

  /** Nothing but root options, each well formed. */
  predicate OptionBlock(block: seq<Arg>) {
    Extract(block).Some? && Extract(block).value.arguments == []
  }

  lemma LeadingOfBlock(block: seq<Arg>, rest: seq<Arg>)
    requires block != [] && Leading(block).Some?
    ensures Leading(block + rest) == Leading(block)
    ensures (block + rest)[Leading(block).value.0..] == block[Leading(block).value.0..] + rest
  {
  }

  lemma BlockStep(block: seq<Arg>)
    requires block != [] && OptionBlock(block)
    ensures Leading(block).Some? && OptionBlock(block[Leading(block).value.0..])
    ensures Extract(block).value.environment
         == [Leading(block).value.1] + Extract(block[Leading(block).value.0..]).value.environment
  {
  }

  /** Extraction takes a block of options off the front. */
  lemma {:induction false} ExtractBlock(block: seq<Arg>, rest: seq<Arg>)
    requires OptionBlock(block)
    ensures Extract(block + rest) == After([], Extract(block).value.environment, Extract(rest))
    decreases |block|
  {
    if block == [] {
      assert block + rest == rest;
      AfterNothing(rest);
      assert rest[0..] == rest;
    } else {
      BlockStep(block);
      LeadingOfBlock(block, rest);
      var (n, setting) := Leading(block).value;
      var tail := Extract(block[n..]).value.environment;
      ExtractBlock(block[n..], rest);
      assert (block + rest)[0] == block[0];
      assert Extract(block + rest) == With(setting, After([], tail, Extract(rest)));
      WithAfter(setting, tail, Extract(rest));
    }
  }

  lemma WithAfter(setting: (string, Arg), environment: Environment, rest: Option<Parsed>)
    ensures With(setting, After([], environment, rest)) == After([], [setting] + environment, rest)
  {
    if rest.Some? {
      assert [setting] + (environment + rest.value.environment) == [setting] + environment + rest.value.environment;
    }
  }

  lemma {:induction false} RouteBlock(block: seq<Arg>, rest: seq<Arg>, environment: Environment)
    requires OptionBlock(block)
    ensures RouteOf(block + rest, environment) == RouteOf(rest, environment + Extract(block).value.environment)
    decreases |block|
  {
    if block == [] {
      assert block + rest == rest && environment + [] == environment;
    } else {
      BlockStep(block);
      LeadingOfBlock(block, rest);
      OptionsAreNotHelp(block);
      var (n, setting) := Leading(block).value;
      RouteBlock(block[n..], rest, environment + [setting]);
      var tail := Extract(block[n..]).value.environment;
      assert environment + [setting] + tail == environment + ([setting] + tail);
      assert (block + rest)[0] == block[0];
    }
  }

  lemma OptionsAreNotHelp(args: seq<Arg>)
    requires Leading(args).Some?
    ensures args[0].text !in {"--", "--help", "-h", "--version", "-V"}
  {
    NotAnOption("--help");
    NotAnOption("-h");
    NotAnOption("--version");
    NotAnOption("-V");
  }

  lemma NotAnOption(token: string)
    requires token in {"--help", "-h", "--version", "-V"} || (token != "" && token[0] != '-')
    ensures Classify(token).Word?
  {
    OptionsAreLong();
    forall option | LongOption(option) ensures Differs(token, option) {
      Differ(token, option);
    }
    NotForbidden(FORBIDDEN, token);
    NoValueOption(VALUE_OPTIONS, token);
    NoBooleanOption(BOOLEAN_OPTIONS, token);
  }

  lemma OptionsAreLong()
    ensures forall i :: 0 <= i < |FORBIDDEN| ==> LongOption(FORBIDDEN[i])
    ensures forall i :: 0 <= i < |VALUE_OPTIONS| ==> LongOption(VALUE_OPTIONS[i].0)
    ensures forall i :: 0 <= i < |BOOLEAN_OPTIONS| ==> LongOption(BOOLEAN_OPTIONS[i].0)
  {
  }

  lemma NotForbidden(options: seq<string>, token: string)
    requires forall i :: 0 <= i < |options| ==> Differs(token, options[i])
    ensures !IsForbidden(options, token)
  {
  }

  predicate Differs(token: string, option: string) {
    token != option && Inline(option, token).None? && token != Negative(option)
  }

  /** Tokens of the first kind never spell an option of the second. */
  predicate Plain(token: string) {
    || (token != "" && token[0] != '-')
    || (|token| == 2 && token[1] != '-')
    || (|token| >= 4 && token[3] == 'e' && token[2] in {'h', 'v'})
  }

  predicate LongOption(option: string) {
    |option| > 4 && option[0] == option[1] == '-' && !(option[3] == 'e' && option[2] in {'h', 'v'})
  }

  lemma Differ(token: string, option: string)
    requires Plain(token) && LongOption(option)
    ensures Differs(token, option)
  {
  }

  lemma NoValueOption(options: seq<(string, string)>, token: string)
    requires forall i :: 0 <= i < |options| ==> Differs(token, options[i].0)
    ensures ValueOption(options, token).None?
  {
  }

  lemma NoBooleanOption(options: seq<(string, string)>, token: string)
    requires forall i :: 0 <= i < |options| ==> Differs(token, options[i].0)
    ensures BooleanOption(options, token).None? && !IsBooleanSpelling(options, token)
  {
  }

  /** A block of root options may as well stand right after the name: the route is the same. */
  lemma {:induction false} BlockMayFollowName(before: seq<Arg>, block: seq<Arg>, name: string, rest: seq<Arg>)
    requires OptionBlock(before) && OptionBlock(block) && ValidName(name) && name != "help"
    ensures RouteOf(before + (block + ([Text(name)] + rest)), [])
         == RouteOf(before + ([Text(name)] + (block + rest)), [])
  {
    var (outer, inner) := (Extract(before).value.environment, Extract(block).value.environment);
    RouteBlock(before, block + ([Text(name)] + rest), []);
    RouteBlock(before, [Text(name)] + (block + rest), []);
    assert [] + outer == outer;
    RouteBlock(block, [Text(name)] + rest, outer);
    NameStartsRoute(name, rest, outer + inner);
    NameStartsRoute(name, block + rest, outer);
    ExtractBlock(block, rest);
    if Extract(rest).Some? {
      var p := Extract(rest).value;
      assert outer + inner + p.environment == outer + (inner + p.environment) && [] + p.arguments == p.arguments;
    }
  }

  lemma NameStartsRoute(name: string, rest: seq<Arg>, environment: Environment)
    requires ValidName(name) && name != "help"
    ensures RouteOf([Text(name)] + rest, environment) == Named(name, environment, rest, false)
  {
    assert name[0] != '-';
    NotAnOption(name);
    assert ([Text(name)] + rest)[1..] == rest;
  }

  // ---------- The options by name ----------

  /** A token that differs from an option at some place is not that option in any spelling. */
  lemma {:induction false} DiffersAt(token: string, option: string, i: nat)
    requires i < |option| && i < |token| && token[i] != option[i]
    ensures token != option && Inline(option, token).None?
  {
    assert (option + "=")[i] == option[i];
    assert |token| > |option| ==> token[..|option| + 1][i] == token[i];
  }

  /** The token is this option, alone or with a value. */
  predicate Spells(token: string, option: string) {
    token == option || Inline(option, token).Some?
  }

  lemma {:induction false} ValueOptionAt(options: seq<(string, string)>, k: nat, token: string)
    requires k < |options| && Spells(token, options[k].0)
    requires forall j :: 0 <= j < k ==> !Spells(token, options[j].0)
    ensures ValueOption(options, token) == Some((options[k].1, Inline(options[k].0, token)))
  {
    if k > 0 {
      assert !Spells(token, options[0].0);
      ValueOptionAt(options[1..], k - 1, token);
    } else if token == options[0].0 {
      assert |options[0].0 + "="| > |token|;
    }
  }

  lemma {:induction false} SpelledAt(token: string, option: string, i: nat)
    requires Spells(token, option) && i < |option|
    ensures |token| >= |option| && token[i] == option[i]
  {
    if token != option {
      assert token[..|option| + 1][i] == (option + "=")[i] == option[i];
    }
  }

  lemma {:induction false} ValueOptionMeans(k: nat, token: string)
    requires k < |VALUE_OPTIONS| && Spells(token, VALUE_OPTIONS[k].0)
    ensures Classify(token) == Setting(VALUE_OPTIONS[k].1, Inline(VALUE_OPTIONS[k].0, token))
  {
    var option := VALUE_OPTIONS[k].0;
    SpelledAt(token, option, 2);
    if k == 3 {
      SpelledAt(token, option, 11);
      DiffersAt(token, FORBIDDEN[1], 11);
    } else {
      DiffersAt(token, FORBIDDEN[1], 2);
    }
    DiffersAt(token, FORBIDDEN[0], 2);
    NeitherForbidden(token);
    forall j | 0 <= j < k ensures !Spells(token, VALUE_OPTIONS[j].0) {
      DiffersAt(token, VALUE_OPTIONS[j].0, 2);
    }
    ValueOptionAt(VALUE_OPTIONS, k, token);
  }

  lemma {:induction false} NeitherForbidden(token: string)
    requires !Spells(token, FORBIDDEN[0]) && !Spells(token, FORBIDDEN[1])
    ensures !IsForbidden(FORBIDDEN, token)
  {
    assert FORBIDDEN[1..] == [FORBIDDEN[1]] && FORBIDDEN[1..][1..] == [];
    assert !IsForbidden(FORBIDDEN[1..][1..], token);
    assert !IsForbidden(FORBIDDEN[1..], token);
  }

  lemma {:induction false} NoValueSpelling(options: seq<(string, string)>, token: string)
    requires forall j :: 0 <= j < |options| ==> !Spells(token, options[j].0)
    ensures ValueOption(options, token) == None
  {
    if options != [] {
      assert !Spells(token, options[0].0);
      NoValueSpelling(options[1..], token);
    }
  }

  /** The option sets this variable, to the next argument or to the part after `=`. */
  predicate Sets(option: string, key: string, value: string) {
    Classify(option) == Setting(key, None) && Classify(option + "=" + value) == Setting(key, Some(value))
  }

  /** What each option with a value sets. */
  lemma {:induction false} ValueOptionsByName(value: string)
    ensures Sets("--registry", "ZED_PKG_REGISTRY", value) && Sets("--home", "ZED_PKG_HOME", value)
    ensures Sets("--auth-url", "ZED_PKG_AUTH_URL", value) && Sets("--supabase-url", "ZED_PKG_SUPABASE_URL", value)
    ensures Sets("--global-bin-dir", "ZED_PKG_GLOBAL_BIN_DIR", value)
  {
    OneValueOption(0, value);
    OneValueOption(1, value);
    OneValueOption(2, value);
    OneValueOption(3, value);
    OneValueOption(4, value);
  }

  /** Credentials are refused. */
  lemma {:induction false} CredentialsAreRefused(value: string)
    ensures Classify("--token") == Classify("--token" + "=" + value) == Refused
    ensures Classify("--supabase-key") == Classify("--supabase-key" + "=" + value) == Refused
  {
    InlineValue("--token", value);
    InlineValue("--supabase-key", value);
    FirstOrSecondForbidden("--token");
    FirstOrSecondForbidden("--token" + "=" + value);
    FirstOrSecondForbidden("--supabase-key");
    FirstOrSecondForbidden("--supabase-key" + "=" + value);
  }

  lemma {:induction false} FirstOrSecondForbidden(token: string)
    requires Spells(token, "--token") || Spells(token, "--supabase-key")
    ensures Classify(token) == Refused
  {
    assert FORBIDDEN[0] == "--token" && FORBIDDEN[1..][0] == "--supabase-key";
    assert Spells(token, "--supabase-key") ==> IsForbidden(FORBIDDEN[1..], token);
  }

  // ---------- Switches by name ----------

  /** What a word means for a switch. */
  predicate Means(word: string, value: Option<string>) {
    NormalizeBoolean(word) == value
  }

  lemma {:induction false} WordMeans(word: string, lower: string, value: Option<string>)
    requires Tight(word) && |lower| == |word|
    requires NormalizeBoolean(lower) == value && Lower(lower) == Trim(lower) == lower
    requires forall i :: 0 <= i < |word| ==>
      lower[i] == if 'A' <= word[i] <= 'Z' then word[i] - 'A' + 'a' else word[i]
    ensures Means(word, value) && Means(" " + word, value)
  {
    assert " " + word == Spaces(1) + word;
    TrimIndented(1, word);
    TrimTight(word);
    assert Lower(word) == lower;
  }

  /** The words themselves. */
  lemma {:induction false} LowerWord(word: string)
    requires Tight(word) && forall c :: c in word ==> 'a' <= c <= 'z' || '0' <= c <= '9'
    ensures Lower(word) == Trim(word) == word
    ensures word in {"true", "1", "yes", "on"} ==> NormalizeBoolean(word) == Some("true")
    ensures word in {"false", "0", "no", "off"} ==> NormalizeBoolean(word) == Some("false")
    ensures |word| > 5 ==> NormalizeBoolean(word) == None
  {
    TrimTight(word);
    forall i | 0 <= i < |word| ensures Lower(word)[i] == word[i] {
      assert word[i] in word;
    }
    assert Lower(word) == word;
  }

  /** Yes in its spellings, in any case and with blanks around it. */
  lemma {:induction false} WordsForTrue()
    ensures Means("true", Some("true")) && Means("1", Some("true")) && Means("yes", Some("true"))
    ensures Means("on", Some("true")) && Means("YES", Some("true")) && Means(" " + "On", Some("true"))
  {
    LowerWord("true");
    LowerWord("1");
    LowerWord("yes");
    LowerWord("on");
    WordMeans("YES", "yes", Some("true"));
    WordMeans("On", "on", Some("true"));
  }

  /** No likewise, and what means nothing. */
  lemma {:induction false} WordsForFalse()
    ensures Means("false", Some("false")) && Means("0", Some("false")) && Means("no", Some("false"))
    ensures Means("off", Some("false")) && Means("OFF", Some("false")) && Means("perhaps", None)
  {
    LowerWord("false");
    LowerWord("0");
    LowerWord("no");
    LowerWord("off");
    WordMeans("OFF", "off", Some("false"));
    LowerWord("perhaps");
  }

  lemma {:induction false} NegativeOf(option: string, name: string)
    requires option == "-" + ("-" + name) && name != "" && name[0] != '-'
    ensures Negative(option) == "--no-" + name
  {
    assert ("-" + name)[1..] == name && TrimDashes(name) == name;
    assert TrimDashes("-" + name) == name;
    assert option[1..] == "-" + name;
  }

  lemma {:induction false} NegativesByName()
    ensures Negative("--interactive") == "--no-interactive" && Negative("--git-submodules") == "--no-git-submodules"
  {
    assert "-" + ("-" + "interactive") == "--interactive" && "--no-" + "interactive" == "--no-interactive";
    assert "-" + ("-" + "git-submodules") == "--git-submodules";
    assert "--no-" + "git-submodules" == "--no-git-submodules";
    NegativeOf("--interactive", "interactive");
    NegativeOf("--git-submodules", "git-submodules");
  }

  /** What goes on with `i`, `gi` or `n` is neither a credential nor an option with a value. */
  lemma {:induction false} SwitchIsNoSetting(token: string)
    requires |token| > 3 && (token[2] in {'i', 'n'} || (token[2] == 'g' && token[3] == 'i'))
    ensures !IsForbidden(FORBIDDEN, token) && ValueOption(VALUE_OPTIONS, token) == None
  {
    DiffersAt(token, FORBIDDEN[0], 2);
    DiffersAt(token, FORBIDDEN[1], 2);
    NeitherForbidden(token);
    forall j | 0 <= j < |VALUE_OPTIONS| ensures !Spells(token, VALUE_OPTIONS[j].0) {
      DiffersAt(token, VALUE_OPTIONS[j].0, if j == 4 && token[2] == 'g' then 3 else 2);
    }
    NoValueSpelling(VALUE_OPTIONS, token);
  }

  /** The switch is on by itself, off with `no`, and otherwise what the word after `=` means, if it means anything. */
  predicate Toggles(option: string, negative: string, key: string, word: string) {
    && Classify(option) == Switch(key, "true") && Classify(negative) == Switch(key, "false")
    && Classify(option + "=" + word) ==
       match NormalizeBoolean(word) { case Some(value) => Switch(key, value) case None => Refused }
  }

  /** What a switch's token means: itself, its negative, or the word after `=`. */
  function SwitchValue(option: string, negative: string, token: string): Option<string> {
    if token == option then Some("true")
    else if token == negative then Some("false")
    else if Inline(option, token).Some? then NormalizeBoolean(Inline(option, token).value)
    else None
  }

  lemma {:induction false} FirstSwitchToken(token: string)
    requires |token| > 5 && (token[2] == 'i' || token == "--no-interactive")
    requires Spells(token, "--interactive") || token == "--no-interactive"
    ensures var value := SwitchValue("--interactive", "--no-interactive", token);
      Classify(token) == if value.Some? then Switch("ZED_PKG_INTERACTIVE", value.value) else Refused
  {
    SwitchIsNoSetting(token);
    NegativesByName();
    assert BOOLEAN_OPTIONS[0] == ("--interactive", "ZED_PKG_INTERACTIVE");
    OtherSwitch(token);
  }

  /** A spelling of the first switch is none of the second. */
  lemma {:induction false} OtherSwitch(token: string)
    requires |token| > 5 && (token[2] == 'i' || (token[2] == 'n' && token[5] == 'i'))
    ensures BooleanOption(BOOLEAN_OPTIONS[1..], token) == None && !IsBooleanSpelling(BOOLEAN_OPTIONS[1..], token)
  {
    DiffersAt(token, BOOLEAN_OPTIONS[1].0, 2);
    assert BOOLEAN_OPTIONS[1..] == [BOOLEAN_OPTIONS[1]] && [BOOLEAN_OPTIONS[1]][1..] == [];
    NegativesByName();
    assert Negative(BOOLEAN_OPTIONS[1].0)[2] == 'n' && Negative(BOOLEAN_OPTIONS[1].0)[5] == 'g';
    assert BooleanOption([], token) == None && !IsBooleanSpelling([], token);
  }

  lemma {:induction false} SecondSwitchToken(token: string)
    requires |token| > 5 && ((token[2] == 'g' && token[3] == 'i') || token == "--no-git-submodules")
    requires Spells(token, "--git-submodules") || token == "--no-git-submodules"
    ensures var value := SwitchValue("--git-submodules", "--no-git-submodules", token);
      Classify(token) == if value.Some? then Switch("ZED_PKG_GIT_SUBMODULES", value.value) else Refused
  {
    SwitchIsNoSetting(token);
    NegativesByName();
    NotTheFirstSwitch(token);
    assert BOOLEAN_OPTIONS[1..][0] == ("--git-submodules", "ZED_PKG_GIT_SUBMODULES") && BOOLEAN_OPTIONS[1..][1..] == [];
    assert BooleanOption([], token) == None && !IsBooleanSpelling([], token);
  }

  lemma {:induction false} NotTheFirstSwitch(token: string)
    requires |token| > 5 && (token[2] == 'g' || (token[2] == 'n' && token[5] == 'g'))
    ensures BooleanOption(BOOLEAN_OPTIONS, token) == BooleanOption(BOOLEAN_OPTIONS[1..], token)
    ensures IsBooleanSpelling(BOOLEAN_OPTIONS, token) <==> IsBooleanSpelling(BOOLEAN_OPTIONS[1..], token)
  {
    DiffersAt(token, BOOLEAN_OPTIONS[0].0, 2);
    NegativesByName();
    assert Negative(BOOLEAN_OPTIONS[0].0)[2] == 'n' && Negative(BOOLEAN_OPTIONS[0].0)[5] == 'i';
  }

  lemma {:induction false} WordIsNeither(option: string, negative: string, word: string)
    requires |option| > 2 && |negative| > 2 && option[2] != negative[2]
    ensures var token := option + "=" + word;
      |token| > |option| && token[2] == option[2] && (|option| > 3 ==> token[3] == option[3]) && Spells(token, option)
      && SwitchValue(option, negative, token) == NormalizeBoolean(word)
  {
    InlineValue(option, word);
    var token := option + "=" + word;
    assert |token| > |option| && token[2] == option[2];
  }

  /** The two switches, and what they set. */
  lemma {:induction false} FirstSwitch(word: string)
    ensures Toggles("--interactive", "--no-interactive", "ZED_PKG_INTERACTIVE", word)
  {
    WordIsNeither("--interactive", "--no-interactive", word);
    FirstSwitchToken("--interactive");
    FirstSwitchToken("--no-interactive");
    FirstSwitchToken("--interactive" + "=" + word);
  }

  lemma {:induction false} SecondSwitch(word: string)
    ensures Toggles("--git-submodules", "--no-git-submodules", "ZED_PKG_GIT_SUBMODULES", word)
  {
    WordIsNeither("--git-submodules", "--no-git-submodules", word);
    SecondSwitchToken("--git-submodules");
    SecondSwitchToken("--no-git-submodules");
    SecondSwitchToken("--git-submodules" + "=" + word);
  }

  // ---------- Calls by example ----------

  /** Anything that is no option at all, and what is not text, is handed on. */
  lemma {:induction false} OrdinaryIsForeign(arg: Arg)
    requires arg.Raw? || (arg.text != "" && arg.text[0] != '-') || arg.text in {"--help", "-h", "--version", "-V"}
    ensures Foreign(arg)
  {
    if arg.Text? {
      NotAnOption(arg.text);
    }
  }

  /** An option with its value in the next argument. */
  lemma {:induction false} SettingInNext(
      option: string, key: string, value: Arg, rest: seq<Arg>, environment: Environment)
    requires Classify(option) == Setting(key, None) && option != "--"
    ensures Extract([Text(option)]) == None
    ensures value in {Text(""), Raw([])} ==> Extract([Text(option), value] + rest) == None
    ensures value !in {Text(""), Raw([])} ==> Extract([Text(option), value] + rest) == With((key, value), Extract(rest))
    ensures value !in {Text(""), Raw([])} && option !in {"--help", "-h", "--version", "-V"} ==>
      RouteOf([Text(option), value] + rest, environment) == RouteOf(rest, environment + [(key, value)])
  {
    var args := [Text(option), value] + rest;
    assert args[2..] == rest && args[0] == Text(option) && args[1] == value;
  }

  /** An option with its value after `=`, or a switch. */
  lemma {:induction false} SettingInline(
      token: string, key: string, value: string, rest: seq<Arg>, environment: Environment)
    requires Classify(token) in {Setting(key, Some(value)), Switch(key, value)} && value != "" && token != "--"
    ensures Extract([Text(token)] + rest) == With((key, Text(value)), Extract(rest))
    ensures token !in {"--help", "-h", "--version", "-V"} ==>
      RouteOf([Text(token)] + rest, environment) == RouteOf(rest, environment + [(key, Text(value))])
  {
    var args := [Text(token)] + rest;
    assert args[1..] == rest && args[0] == Text(token);
  }

  /** A credential, a misspelt switch or an empty value: no route. */
  lemma {:induction false} NothingRefusedPasses(token: string, key: string, rest: seq<Arg>, environment: Environment)
    requires Classify(token) in {Refused, Setting(key, Some(""))} && token != "--"
    ensures Extract([Text(token)] + rest) == None && RouteOf([Text(token)] + rest, environment) == None
  {
    var args := [Text(token)] + rest;
    assert args[0] == Text(token);
  }

  /** Arguments that say nothing to the root command. */
  predicate Ordinary(args: seq<Arg>) {
    forall arg :: arg in args ==> arg.Raw? || (arg.text != "" && arg.text[0] != '-')
  }

  lemma {:induction false} OrdinaryIsKept(args: seq<Arg>)
    requires Ordinary(args)
    ensures Extract(args) == Some(Parsed(args, [])) && EnsureHelp(args) == args + [Text("--help")]
  {
    forall i | 0 <= i < Separator(args) ensures Foreign(args[i]) {
      assert args[i] in args;
      OrdinaryIsForeign(args[i]);
    }
    NothingToExtract(args);
    assert Text("--help") !in args && Text("-h") !in args && Text("--") !in args;
    assert Separator(args) == |args| && args[..|args|] == args && args[|args|..] == [];
  }

  lemma {:induction false} HelpStartsRoute(name: string, rest: seq<Arg>, environment: Environment)
    ensures RouteOf([Text("help"), Text(name)] + rest, environment) == Named(name, environment, rest, true)
  {
    NotAnOption("help");
    WordStartsHelp("help", name, rest, environment);
  }

  lemma {:induction false} WordStartsHelp(token: string, name: string, rest: seq<Arg>, environment: Environment)
    requires token == "help" && Classify(token).Word?
    ensures RouteOf([Text(token), Text(name)] + rest, environment) == Named(name, environment, rest, true)
  {
    var help := [Text(token), Text(name)] + rest;
    assert help[0] == Text(token) && help[1] == Text(name) && help[2..] == rest;
    assert token[0] == 'h' && |token| == 4;
    assert Leading(help) == None;
  }

  /** The extension gets its arguments as they are; through `help` it gets `--help` as well. */
  lemma {:induction false} PlainCalls(name: string, args: seq<Arg>, environment: Environment)
    requires ValidName(name) && name != "help" && Ordinary(args)
    ensures RouteOf([Text(name)] + args, environment) == Some(Route(name, args, environment))
    ensures RouteOf([Text("help"), Text(name)] + args, environment)
         == Some(Route(name, args + [Text("--help")], environment))
  {
    OrdinaryIsKept(args);
    NameStartsRoute(name, args, environment);
    HelpStartsRoute(name, args, environment);
    assert environment + [] == environment;
  }

  /** After `--`, a question for help or the version, or an unknown option there is no extension. */
  lemma {:induction false} NoCalls(token: string, rest: seq<Arg>, environment: Environment)
    requires token in {"--", "--help", "-h", "--version", "-V"} || (Classify(token).Word? && HasPrefix(token, "-"))
    ensures RouteOf([Text(token)] + rest, environment) == None && RouteOf([], environment) == None
  {
    assert ([Text(token)] + rest)[0] == Text(token);
  }

  /** Names of extensions. */
  lemma {:induction false} NamesByExample()
    ensures ValidName("gitops") && ValidName("hex.pm")
    ensures !ValidName("") && !ValidName("-a") && !ValidName("a/b") && !ValidName("a.b") && !ValidName("_a")
  {
    assert "a/b"[1] == '/' && "a.b"[1] == '.' && '/' in "a/b" && '.' in "a.b" && |"a.b"| != |"hex.pm"|;
    AsciiLength("gitops");
  }

  /** They have at most 64 characters. */
  lemma {:induction false} NamesAreShort(n: nat)
    requires n > 0
    ensures ValidName(seq(n, _ => 'a')) <==> n <= 64
  {
    var name := seq(n, _ => 'a');
    AsciiLength(name);
    assert name != "hex.pm" by {
      assert name[0] != "hex.pm"[0];
    }
  }

  lemma {:induction false} AsciiLength(word: string)
    requires forall c :: c in word ==> c < '\U{80}'
    ensures Utf8Length(word) == |word|
  {
    if word != "" {
      assert word[0] in word && forall c :: c in word[1..] ==> c in word;
      AsciiLength(word[1..]);
    }
  }

  lemma {:induction false} InlineValue(option: string, value: string)
    ensures Inline(option, option + "=" + value) == Some(value)
  {
    var token := option + "=" + value;
    assert token[..|option| + 1] == option + "=" && token[|option| + 1..] == value;
  }

  lemma {:induction false} OneValueOption(k: nat, value: string)
    requires k < |VALUE_OPTIONS|
    ensures var (option, key) := VALUE_OPTIONS[k];
      Classify(option) == Setting(key, None) && Classify(option + "=" + value) == Setting(key, Some(value))
  {
    var option := VALUE_OPTIONS[k].0;
    InlineValue(option, value);
    assert |option + "="| > |option|;
    ValueOptionMeans(k, option);
    ValueOptionMeans(k, option + "=" + value);
  }

  /** From `--` on nothing is read, the separator included. */
  lemma {:induction false} SeparatorIsKept(rest: seq<Arg>)
    ensures Extract([Text("--")] + rest) == Some(Parsed([Text("--")] + rest, []))
  {
    assert ([Text("--")] + rest)[0] == Text("--");
  }

  /** Who asks for help already, in either spelling, does not ask again; otherwise it is asked for before `--`. */
  lemma {:induction false} HelpIsAskedOnce(before: seq<Arg>, after: seq<Arg>)
    requires Text("--") !in before
    ensures Text("-h") in before || Text("--help") in before ==> EnsureHelp(before) == before
    ensures Text("-h") !in before + after && Text("--help") !in before + after ==>
      EnsureHelp(before + [Text("--")] + after) == before + [Text("--help"), Text("--")] + after
  {
    var args := before + [Text("--")] + after;
    if Text("-h") !in before + after && Text("--help") !in before + after {
      FirstSeparator(before, after);
      assert args[..|before|] == before && args[|before|..] == [Text("--")] + after;
      assert forall arg :: arg in args ==> arg in before + after || arg == Text("--");
      assert !AsksForHelp(args);
    }
  }

  lemma {:induction false} FirstSeparator(before: seq<Arg>, after: seq<Arg>)
    requires Text("--") !in before
    ensures Separator(before + [Text("--")] + after) == |before|
  {
    var args := before + [Text("--")] + after;
    if before != [] {
      FirstSeparator(before[1..], after);
      assert args[0] == before[0] && args[1..] == before[1..] + [Text("--")] + after;
    }
  }
}
