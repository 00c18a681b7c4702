/** The command tree's parser, completion state and execution gate:
    src/commands/catalog.ts. */
module CommandParser {
  import opened Prelude
  import opened JsText
  import L = Lexer

  const SLASH: Unit := '/' as int
  const DASHES: Text := [HYPHEN, HYPHEN]

  datatype Kind = Enum | Plain | Rest | Variadic | Reference | CommandPath

  /** `checked` says that the specification has a `validate` of its own. */
  datatype Argument = Argument(name: Text, kind: Kind, optional: bool, values: seq<Text>, checked: bool)

  datatype OptionSpec = OptionSpec(name: Text, value: Option<Argument>, repeatable: bool)

  datatype Action = Action(name: Text, arguments: seq<Argument>, options: seq<OptionSpec>, help: bool)

  datatype Node = Leaf(action: Action) | Group(name: Text, place: Place)

  /** Where a path has led: the nodes to choose from, and the action to fall
      back to when a token names none of them. */
  datatype Place = Place(children: seq<Node>, fallback: Option<Action>)

  /** What the validators and the candidate providers of an argument answer. */
  datatype Context = Context(passes: (Text, Text) -> bool, candidates: Text -> seq<Text>)

  datatype Given = Nothing | True | One(text: Text) | Many(texts: seq<Text>)

  datatype Args = Args(positionals: map<Text, Given>, options: map<Text, Given>)

  datatype Reason =
    | UnknownOption(token: Text)
    | RepeatedOption(name: Text)
    | BadValue(argument: Text, value: Text)
    | MissingValue(name: Text)
    | MissingArgument(name: Text)
    | Surplus(tokens: seq<Text>)

  datatype Parsed = Executable(args: Args) | Incomplete(missing: Reason) | Invalid(error: Reason)

  predicate StartsWithDashes(t: Text) {
    |t| >= 2 && t[0] == HYPHEN && t[1] == HYPHEN
  }

  /** The entry of a Map that is filled from the options: the last one wins. */
  function LastNamed(specs: seq<OptionSpec>, name: Text): Option<OptionSpec> {
    if |specs| == 0 then None
    else if specs[|specs| - 1].name == name then Some(specs[|specs| - 1])
    else LastNamed(specs[..|specs| - 1], name)
  }

  function FirstNamed(specs: seq<OptionSpec>, name: Text): Option<OptionSpec> {
    if |specs| == 0 then None
    else if specs[0].name == name then Some(specs[0])
    else FirstNamed(specs[1..], name)
  }

  predicate DistinctNames(specs: seq<OptionSpec>) {
    forall j, k :: 0 <= j < k < |specs| ==> specs[j].name != specs[k].name
  }

  function Camel(t: Text): Text {
    if |t| == 0 then t
    else if |t| >= 2 && t[0] == HYPHEN && 0x61 <= t[1] <= 0x7A then [t[1] - 0x20] + Camel(t[2..])
    else [t[0]] + Camel(t[1..])
  }

  function OptionKey(name: Text): Text {
    Camel(if |name| < 2 then name[|name|..] else name[2..])
  }

  predicate IsLower(u: Unit) {
    'a' as int <= u <= 'z' as int
  }

  /** A hyphen before a lower-case letter goes, and the letter becomes a capital. */
  function Camelled(t: Text, i: nat): Text
    requires i < |t|
  {
    if t[i] == '-' as int && i + 1 < |t| && IsLower(t[i + 1]) then []
    else if IsLower(t[i]) && i > 0 && t[i - 1] == '-' as int then [t[i] - 'a' as int + 'A' as int]
    else [t[i]]
  }

  function CamelledFrom(t: Text, i: nat): Text
    requires i <= |t|
    decreases |t| - i
  {
    if i == |t| then [] else Camelled(t, i) + CamelledFrom(t, i + 1)
  }

  /** The key of an option is its name without the dashes, unit by unit. */
  lemma {:induction false} CamelIsCamelled(t: Text, i: nat)
    requires i <= |t| && (0 < i < |t| ==> !(t[i - 1] == '-' as int && IsLower(t[i])))
    ensures Camel(t[i..]) == CamelledFrom(t, i)
    decreases |t| - i
  {
    if i < |t| {
      if i + 1 < |t| && t[i] == '-' as int && IsLower(t[i + 1]) {
        CamelIsCamelled(t, i + 2);
        assert t[i..][2..] == t[i + 2..];
        assert CamelledFrom(t, i) == [] + (Camelled(t, i + 1) + CamelledFrom(t, i + 2));
      } else {
        CamelIsCamelled(t, i + 1);
        assert t[i..][1..] == t[i + 1..];
      }
    }
  }

  lemma OptionKeyIsCamelled(name: Text)
    ensures OptionKey(name) == CamelledFrom(if |name| < 2 then [] else name[2..], 0)
  {
    var rest := if |name| < 2 then [] else name[2..];
    assert rest[0..] == rest && (|name| < 2 ==> name[|name|..] == rest);
    CamelIsCamelled(rest, 0);
  }

  predicate Accepts(context: Context, argument: Argument, value: Text) {
    && (argument.kind == Enum ==> value in argument.values)
    && (if argument.checked then context.passes(argument.name, value)
        else argument.kind == Reference ==> value in context.candidates(argument.name))
  }

  // ------------------------------------------------------ roles of tokens

  datatype Role =
    | Separator
    | Positional
    | Flag(option: OptionSpec)
    | Name(option: OptionSpec, argument: Argument)
    | Value(option: OptionSpec)

  predicate AwaitsValue(roles: seq<Role>) {
    |roles| > 0 && roles[|roles| - 1].Name?
  }

  predicate Stores(role: Role, key: Text) {
    (role.Flag? || role.Value?) && OptionKey(role.option.name) == key
  }

  predicate Stored(roles: seq<Role>, key: Text) {
    exists k :: 0 <= k < |roles| && Stores(roles[k], key)
  }

  function OptionRole(specs: seq<OptionSpec>, token: Text, roles: seq<Role>): Result<Role, Reason> {
    match LastNamed(specs, token)
    case None => Failure(UnknownOption(token))
    case Some(option) =>
      if !option.repeatable && Stored(roles, OptionKey(option.name)) then Failure(RepeatedOption(option.name))
      else Success(if option.value.Some? then Name(option, option.value.value) else Flag(option))
  }

  function ValueRole(context: Context, token: Text, option: OptionSpec, argument: Argument): Result<Role, Reason> {
    if |token| == 0 then Failure(MissingValue(option.name))
    else if Accepts(context, argument, token) then Success(Value(option))
    else Failure(BadValue(argument.name, token))
  }

  /** The role of a token that comes after tokens with these roles. */
  function NextRole(specs: seq<OptionSpec>, context: Context, token: Text, roles: seq<Role>): Result<Role, Reason> {
    if AwaitsValue(roles) then
      var name := roles[|roles| - 1];
      ValueRole(context, token, name.option, name.argument)
    else if Separator in roles || !StartsWithDashes(token) then Success(Positional)
    else if token == DASHES then Success(Separator)
    else OptionRole(specs, token, roles)
  }

  /** The roles of the first `n` tokens, or what is wrong with the first token
      that can have none. */
  function RolesTo(specs: seq<OptionSpec>, context: Context, tokens: seq<Text>, n: nat): (r: Result<seq<Role>, Reason>)
    requires n <= |tokens|
    ensures r.Success? ==> |r.value| == n
  {
    if n == 0 then Success([])
    else
      match RolesTo(specs, context, tokens, n - 1)
      case Failure(reason) => Failure(reason)
      case Success(roles) =>
        match NextRole(specs, context, tokens[n - 1], roles)
        case Failure(reason) => Failure(reason)
        case Success(role) => Success(roles + [role])
  }

  /** The tokens that have a role, in order. */
  function Picked(tokens: seq<Text>, roles: seq<Role>, role: Role, n: nat): seq<Text>
    requires n <= |roles| <= |tokens|
  {
    if n == 0 then []
    else if roles[n - 1] == role then Picked(tokens, roles, role, n - 1) + [tokens[n - 1]]
    else Picked(tokens, roles, role, n - 1)
  }

  function Extended(given: Option<Given>, value: Text): Given {
    Many((if given.Some? && given.value.Many? then given.value.texts else []) + [value])
  }

  function Lookup(options: map<Text, Given>, key: Text): Option<Given> {
    if key in options then Some(options[key]) else None
  }

  /** The options object after the first `n` tokens. */
  function OptionsTo(tokens: seq<Text>, roles: seq<Role>, n: nat): map<Text, Given>
    requires n <= |roles| <= |tokens|
  {
    if n == 0 then map[]
    else
      var options := OptionsTo(tokens, roles, n - 1);
      match roles[n - 1]
      case Flag(option) => options[OptionKey(option.name) := True]
      case Value(option) =>
        var key := OptionKey(option.name);
        options[key := if option.repeatable then Extended(Lookup(options, key), tokens[n - 1]) else One(tokens[n - 1])]
      case _ => options
  }

  // -------------------------------------------------------- the arguments

  predicate TakesAll(argument: Argument) {
    argument.kind == Rest || argument.kind == Variadic || argument.kind == CommandPath
  }

  function FirstRejected(context: Context, argument: Argument, values: seq<Text>, from: nat): Option<Text>
    requires from <= |values|
    decreases |values| - from
  {
    if from == |values| then None
    else if Accepts(context, argument, values[from]) then FirstRejected(context, argument, values, from + 1)
    else Some(values[from])
  }

  /** Where the values of an argument end, when they start at `from`. */
  function CutAfter(context: Context, argument: Argument, values: seq<Text>, from: nat): (r: Result<nat, Reason>)
    requires from <= |values|
    ensures r.Success? ==> from <= r.value <= |values|
  {
    if TakesAll(argument) then
      if from == |values| && !argument.optional then Failure(MissingArgument(argument.name))
      else if argument.kind == Rest then Success(|values|)
      else
        match FirstRejected(context, argument, values, from)
        case Some(value) => Failure(BadValue(argument.name, value))
        case None => Success(|values|)
    else if from == |values| || |values[from]| == 0 then
      if argument.optional then Success(from) else Failure(MissingArgument(argument.name))
    else if Accepts(context, argument, values[from]) then Success(from + 1)
    else Failure(BadValue(argument.name, values[from]))
  }

  /** The places where the values are cut for the first `n` arguments. */
  function CutsTo(context: Context, arguments: seq<Argument>, values: seq<Text>, n: nat): (r: Result<seq<nat>, Reason>)
    requires n <= |arguments|
    ensures r.Success? ==> |r.value| == n + 1 && r.value[n] <= |values|
  {
    if n == 0 then Success([0])
    else
      match CutsTo(context, arguments, values, n - 1)
      case Failure(reason) => Failure(reason)
      case Success(cuts) =>
        match CutAfter(context, arguments[n - 1], values, cuts[n - 1])
        case Failure(reason) => Failure(reason)
        case Success(cut) => Success(cuts + [cut])
  }

  /** What an argument holds when these values are its own. */
  function Holding(argument: Argument, values: seq<Text>): Given {
    if argument.kind == Variadic || argument.kind == CommandPath then Many(values)
    else if |values| == 0 then Nothing
    else One(L.Joined(values))
  }

  predicate AreCuts(cuts: seq<nat>, n: nat) {
    && |cuts| > 0
    && (forall i :: 0 <= i < |cuts| ==> cuts[i] <= n)
    && (forall i, j :: 0 <= i <= j < |cuts| ==> cuts[i] <= cuts[j])
  }

  function PositionalsTo(arguments: seq<Argument>, values: seq<Text>, cuts: seq<nat>, n: nat): map<Text, Given>
    requires n <= |arguments| && n < |cuts| && AreCuts(cuts, |values|)
  {
    if n == 0 then map[]
    else
      PositionalsTo(arguments, values, cuts, n - 1)
        [arguments[n - 1].name := Holding(arguments[n - 1], values[cuts[n - 1]..cuts[n]])]
  }

  lemma {:induction false} CutsAreCuts(context: Context, arguments: seq<Argument>, values: seq<Text>, n: nat)
    requires n <= |arguments| && CutsTo(context, arguments, values, n).Success?
    ensures AreCuts(CutsTo(context, arguments, values, n).value, |values|)
    decreases n
  {
    if n > 0 {
      CutsAreCuts(context, arguments, values, n - 1);
    }
  }

  /** What parsing yields, whether or not an incomplete command is allowed. */
  function ParseOf(action: Action, context: Context, tokens: seq<Text>): Result<Args, Reason> {
    match RolesTo(action.options, context, tokens, |tokens|)
    case Failure(reason) => Failure(reason)
    case Success(roles) =>
      if AwaitsValue(roles) then Failure(MissingValue(roles[|roles| - 1].option.name))
      else
        var values := Picked(tokens, roles, Positional, |tokens|);
        match CutsTo(context, action.arguments, values, |action.arguments|)
        case Failure(reason) => Failure(reason)
        case Success(cuts) =>
          CutsAreCuts(context, action.arguments, values, |action.arguments|);
          if cuts[|action.arguments|] < |values| then Failure(Surplus(values[cuts[|action.arguments|]..]))
          else Success(Args(PositionalsTo(action.arguments, values, cuts, |action.arguments|),
                            OptionsTo(tokens, roles, |tokens|)))
  }

  /** Only what is missing depends on whether the command may be incomplete. */
  function Report(allowIncomplete: bool, outcome: Result<Args, Reason>): Parsed {
    match outcome
    case Success(args) => Executable(args)
    case Failure(reason) =>
      if allowIncomplete && (reason.MissingValue? || reason.MissingArgument?) then Incomplete(reason)
      else Invalid(reason)
  }

  // -------------------------------------------------------------- parsing

  lemma {:induction false} FailureStays(specs: seq<OptionSpec>, context: Context, tokens: seq<Text>, n: nat, limit: nat)
    requires n <= limit <= |tokens| && RolesTo(specs, context, tokens, n).Failure?
    ensures RolesTo(specs, context, tokens, limit) == RolesTo(specs, context, tokens, n)
    decreases limit
  {
    if n < limit {
      FailureStays(specs, context, tokens, n, limit - 1);
    }
  }

  lemma {:induction false} RolesGrow(tokens: seq<Text>, roles: seq<Role>, role: Role, kind: Role, n: nat)
    requires n <= |roles| < |tokens|
    ensures OptionsTo(tokens, roles + [role], n) == OptionsTo(tokens, roles, n)
    ensures Picked(tokens, roles + [role], kind, n) == Picked(tokens, roles, kind, n)
    decreases n
  {
    if n > 0 {
      RolesGrow(tokens, roles, role, kind, n - 1);
    }
  }

  lemma {:induction false} StoredIffKey(tokens: seq<Text>, roles: seq<Role>, key: Text, n: nat)
    requires n <= |roles| <= |tokens|
    ensures key in OptionsTo(tokens, roles, n) <==> exists k :: 0 <= k < n && Stores(roles[k], key)
    decreases n
  {
    if n > 0 {
      StoredIffKey(tokens, roles, key, n - 1);
      assert key in OptionsTo(tokens, roles, n) <==>
             (key in OptionsTo(tokens, roles, n - 1) || Stores(roles[n - 1], key));
    }
  }

  /** What the loop over the tokens has put into its variables. */
  ghost predicate HasRead(specs: seq<OptionSpec>, context: Context, tokens: seq<Text>, roles: seq<Role>,
                          only: bool, options: map<Text, Given>, values: seq<Text>)
  {
    && |roles| <= |tokens|
    && RolesTo(specs, context, tokens, |roles|) == Success(roles)
    && (only <==> Separator in roles)
    && options == OptionsTo(tokens, roles, |roles|)
    && values == Picked(tokens, roles, Positional, |roles|)
  }

  lemma ReadsOne(specs: seq<OptionSpec>, context: Context, tokens: seq<Text>, roles: seq<Role>, role: Role,
                 only: bool, options: map<Text, Given>, values: seq<Text>)
    requires HasRead(specs, context, tokens, roles, only, options, values) && |roles| < |tokens|
    requires NextRole(specs, context, tokens[|roles|], roles) == Success(role)
    ensures HasRead(specs, context, tokens, roles + [role], only || role == Separator,
                    OptionsTo(tokens, roles + [role], |roles| + 1),
                    if role == Positional then values + [tokens[|roles|]] else values)
    ensures OptionsTo(tokens, roles + [role], |roles|) == options
  {
    RolesGrow(tokens, roles, role, Positional, |roles|);
    assert (roles + [role])[|roles|] == role;
  }

  /** A token without a role ends the reading of all tokens. */
  lemma StopsAt(specs: seq<OptionSpec>, context: Context, tokens: seq<Text>, roles: seq<Role>, reason: Reason)
    requires |roles| < |tokens| && RolesTo(specs, context, tokens, |roles|) == Success(roles)
    requires NextRole(specs, context, tokens[|roles|], roles) == Failure(reason)
    ensures RolesTo(specs, context, tokens, |tokens|) == Failure(reason)
  {
    FailureStays(specs, context, tokens, |roles| + 1, |tokens|);
  }

  /** An option's name and its value, read together. */
  lemma ReadsPair(specs: seq<OptionSpec>, context: Context, tokens: seq<Text>, roles: seq<Role>, only: bool,
                  options: map<Text, Given>, values: seq<Text>, option: OptionSpec, argument: Argument)
    requires HasRead(specs, context, tokens, roles, only, options, values) && |roles| + 1 < |tokens|
    requires NextRole(specs, context, tokens[|roles|], roles) == Success(Name(option, argument))
    requires |tokens[|roles| + 1]| > 0 && Accepts(context, argument, tokens[|roles| + 1])
    ensures var key, value := OptionKey(option.name), tokens[|roles| + 1];
            HasRead(specs, context, tokens, roles + [Name(option, argument)] + [Value(option)], only,
                    options[key := if option.repeatable then Extended(Lookup(options, key), value) else One(value)],
                    values)
  {
    ReadsOne(specs, context, tokens, roles, Name(option, argument), only, options, values);
    ReadsOne(specs, context, tokens, roles + [Name(option, argument)], Value(option), only, options, values);
  }

  lemma ReadsSeparator(specs: seq<OptionSpec>, context: Context, tokens: seq<Text>, roles: seq<Role>,
                       options: map<Text, Given>, values: seq<Text>)
    requires HasRead(specs, context, tokens, roles, false, options, values) && |roles| < |tokens|
    requires !AwaitsValue(roles) && tokens[|roles|] == DASHES
    ensures HasRead(specs, context, tokens, roles + [Separator], true, options, values)
  {
    ReadsOne(specs, context, tokens, roles, Separator, false, options, values);
  }

  lemma ReadsPositional(specs: seq<OptionSpec>, context: Context, tokens: seq<Text>, roles: seq<Role>, only: bool,
                        options: map<Text, Given>, values: seq<Text>)
    requires HasRead(specs, context, tokens, roles, only, options, values) && |roles| < |tokens|
    requires !AwaitsValue(roles) && (only || !StartsWithDashes(tokens[|roles|]))
    ensures HasRead(specs, context, tokens, roles + [Positional], only, options, values + [tokens[|roles|]])
  {
    ReadsOne(specs, context, tokens, roles, Positional, only, options, values);
  }

  lemma ReadsFlag(specs: seq<OptionSpec>, context: Context, tokens: seq<Text>, roles: seq<Role>, only: bool,
                  options: map<Text, Given>, values: seq<Text>, option: OptionSpec)
    requires HasRead(specs, context, tokens, roles, only, options, values) && |roles| < |tokens|
    requires NextRole(specs, context, tokens[|roles|], roles) == Success(Flag(option))
    ensures HasRead(specs, context, tokens, roles + [Flag(option)], only,
                    options[OptionKey(option.name) := True], values)
  {
    ReadsOne(specs, context, tokens, roles, Flag(option), only, options, values);
  }

  /** The loop over the tokens: options by key, positional tokens in order. */
  method ReadTokens(specs: seq<OptionSpec>, context: Context, tokens: seq<Text>)
    returns (outcome: Result<(map<Text, Given>, seq<Text>), Reason>)
    ensures match RolesTo(specs, context, tokens, |tokens|)
            case Failure(reason) => outcome == Failure(reason)
            case Success(roles) =>
              if AwaitsValue(roles) then outcome == Failure(MissingValue(roles[|roles| - 1].option.name))
              else outcome == Success((OptionsTo(tokens, roles, |tokens|),
                                       Picked(tokens, roles, Positional, |tokens|)))
  {
    var options: map<Text, Given> := map[];
    var values: seq<Text> := [];
    var only := false;
    var index := 0;
    ghost var roles: seq<Role> := [];
    while index < |tokens|
      invariant index == |roles| <= |tokens| && !AwaitsValue(roles)
      invariant HasRead(specs, context, tokens, roles, only, options, values)
    {
      var token := tokens[index];
      if !only && token == DASHES {
        ReadsSeparator(specs, context, tokens, roles, options, values);
        roles := roles + [Separator];
        only := true;
        index := index + 1;
        continue;
      }
      if only || !StartsWithDashes(token) {
        ReadsPositional(specs, context, tokens, roles, only, options, values);
        roles := roles + [Positional];
        values := values + [token];
        index := index + 1;
        continue;
      }
      var found := LastNamed(specs, token);
      if found.None? {
        StopsAt(specs, context, tokens, roles, UnknownOption(token));
        return Failure(UnknownOption(token));
      }
      var option := found.value;
      var key := OptionKey(option.name);
      StoredIffKey(tokens, roles, key, |roles|);
      if !option.repeatable && key in options {
        StopsAt(specs, context, tokens, roles, RepeatedOption(option.name));
        return Failure(RepeatedOption(option.name));
      }
      if option.value.None? {
        ReadsFlag(specs, context, tokens, roles, only, options, values, option);
        roles := roles + [Flag(option)];
        options := options[key := True];
        index := index + 1;
        continue;
      }
      var argument := option.value.value;
      ghost var named := roles + [Name(option, argument)];
      ReadsOne(specs, context, tokens, roles, Name(option, argument), only, options, values);
      if index + 1 == |tokens| {
        return Failure(MissingValue(option.name));
      }
      var value := tokens[index + 1];
      if |value| == 0 || !Accepts(context, argument, value) {
        outcome := Failure(if |value| == 0 then MissingValue(option.name) else BadValue(argument.name, value));
        StopsAt(specs, context, tokens, named, outcome.error);
        return;
      }
      ReadsPair(specs, context, tokens, roles, only, options, values, option, argument);
      roles := named + [Value(option)];
      options := options[key := if option.repeatable then Extended(Lookup(options, key), value) else One(value)];
      index := index + 2;
    }
    outcome := Success((options, values));
  }

  lemma {:induction false} CutFailureStays(
    context: Context, arguments: seq<Argument>, values: seq<Text>, n: nat, limit: nat)
    requires n <= limit <= |arguments| && CutsTo(context, arguments, values, n).Failure?
    ensures CutsTo(context, arguments, values, limit) == CutsTo(context, arguments, values, n)
    decreases limit
  {
    if n < limit {
      CutFailureStays(context, arguments, values, n, limit - 1);
    }
  }

  lemma {:induction false} CutsGrow(arguments: seq<Argument>, values: seq<Text>, cuts: seq<nat>, cut: nat, n: nat)
    requires n <= |arguments| && n < |cuts| && AreCuts(cuts, |values|) && AreCuts(cuts + [cut], |values|)
    ensures PositionalsTo(arguments, values, cuts + [cut], n) == PositionalsTo(arguments, values, cuts, n)
    decreases n
  {
    if n > 0 {
      CutsGrow(arguments, values, cuts, cut, n - 1);
    }
  }

  /** What the loop over the arguments has put into its variables. */
  ghost predicate HasCut(context: Context, arguments: seq<Argument>, values: seq<Text>, cuts: seq<nat>,
                         at: nat, positionals: map<Text, Given>)
  {
    && 0 < |cuts| <= |arguments| + 1
    && CutsTo(context, arguments, values, |cuts| - 1) == Success(cuts)
    && AreCuts(cuts, |values|) && at == cuts[|cuts| - 1]
    && positionals == PositionalsTo(arguments, values, cuts, |cuts| - 1)
  }

  lemma CutsOne(context: Context, arguments: seq<Argument>, values: seq<Text>, cuts: seq<nat>,
                at: nat, positionals: map<Text, Given>, cut: nat)
    requires HasCut(context, arguments, values, cuts, at, positionals) && |cuts| <= |arguments|
    requires CutAfter(context, arguments[|cuts| - 1], values, at) == Success(cut)
    ensures at <= cut <= |values|
    ensures var argument := arguments[|cuts| - 1];
            HasCut(context, arguments, values, cuts + [cut], cut,
                   positionals[argument.name := Holding(argument, values[at..cut])])
  {
    CutsAreCuts(context, arguments, values, |cuts|);
    CutsGrow(arguments, values, cuts, cut, |cuts| - 1);
  }

  /** What one argument takes off the values from `at` on, and holds. */
  method Take(context: Context, argument: Argument, values: seq<Text>, at: nat)
    returns (cut: Result<nat, Reason>, given: Given)
    requires at <= |values|
    ensures cut == CutAfter(context, argument, values, at)
    ensures cut.Success? ==> given == Holding(argument, values[at..cut.value])
  {
    given := Nothing;
    if TakesAll(argument) {
      if at == |values| && !argument.optional {
        return Failure(MissingArgument(argument.name)), Nothing;
      }
      if argument.kind == Rest {
        assert values[at..|values|] == values[at..];
        return Success(|values|), if at < |values| then One(L.Joined(values[at..])) else Nothing;
      }
      var j := at;
      while j < |values|
        invariant at <= j <= |values|
        invariant FirstRejected(context, argument, values, at) == FirstRejected(context, argument, values, j)
      {
        if !Accepts(context, argument, values[j]) {
          return Failure(BadValue(argument.name, values[j])), Nothing;
        }
        j := j + 1;
      }
      return Success(|values|), Many(values[at..|values|]);
    }
    if at == |values| || |values[at]| == 0 {
      return if argument.optional then Success(at) else Failure(MissingArgument(argument.name)), Nothing;
    }
    if !Accepts(context, argument, values[at]) {
      return Failure(BadValue(argument.name, values[at])), Nothing;
    }
    assert values[at..at + 1] == [values[at]];
    return Success(at + 1), One(values[at]);
  }

  /** The loop over the arguments: each takes its values off the front. */
  method AssignArguments(context: Context, arguments: seq<Argument>, values: seq<Text>)
    returns (outcome: Result<map<Text, Given>, Reason>)
    ensures match CutsTo(context, arguments, values, |arguments|)
            case Failure(reason) => outcome == Failure(reason)
            case Success(cuts) =>
              && AreCuts(cuts, |values|)
              && outcome == if cuts[|arguments|] < |values| then Failure(Surplus(values[cuts[|arguments|]..]))
                            else Success(PositionalsTo(arguments, values, cuts, |arguments|))
  {
    var positionals: map<Text, Given> := map[];
    var at: nat := 0;
    var i := 0;
    ghost var cuts: seq<nat> := [0];
    while i < |arguments|
      invariant |cuts| == i + 1 <= |arguments| + 1
      invariant HasCut(context, arguments, values, cuts, at, positionals)
    {
      var cut, given := Take(context, arguments[i], values, at);
      if cut.Failure? {
        CutFailureStays(context, arguments, values, i + 1, |arguments|);
        return Failure(cut.error);
      }
      CutsOne(context, arguments, values, cuts, at, positionals, cut.value);
      cuts := cuts + [cut.value];
      positionals := positionals[arguments[i].name := given];
      at := cut.value;
      i := i + 1;
    }
    if at < |values| {
      return Failure(Surplus(values[at..]));
    }
    outcome := Success(positionals);
  }

  method ParseAction(action: Action, context: Context, tokens: seq<Text>, allowIncomplete: bool)
    returns (parsed: Parsed)
    ensures match ParseOf(action, context, tokens)
            case Success(args) => parsed == Executable(args)
            case Failure(reason) =>
              parsed == if allowIncomplete && (reason.MissingValue? || reason.MissingArgument?) then Incomplete(reason)
                        else Invalid(reason)
    ensures parsed == Report(allowIncomplete, ParseOf(action, context, tokens))
  {
    var read := ReadTokens(action.options, context, tokens);
    if read.Failure? {
      return Report(allowIncomplete, Failure(read.error));
    }
    var (options, values) := read.value;
    var held := AssignArguments(context, action.arguments, values);
    if held.Failure? {
      return Report(allowIncomplete, Failure(held.error));
    }
    parsed := Executable(Args(held.value, options));
  }

  // -------------------------------------------------------------- grammar

  /** What an argument asks of a value: an enumeration holds it, the argument's own
      validator passes it, and a reference without one is among its candidates. */
  predicate Passes(context: Context, argument: Argument, value: Text) {
    match argument.kind
    case Enum => value in argument.values && (argument.checked ==> context.passes(argument.name, value))
    case Reference =>
      if argument.checked then context.passes(argument.name, value) else value in context.candidates(argument.name)
    case _ => argument.checked ==> context.passes(argument.name, value)
  }

  lemma DashesSpell(t: Text)
    ensures StartsWithDashes(t) <==> |t| >= 2 && t[0] == '-' as int && t[1] == '-' as int
    ensures DASHES == ['-' as int, '-' as int]
  {
  }

  /** The option that a name stands for: the last of that name. */
  predicate IsLastNamed(specs: seq<OptionSpec>, name: Text, option: OptionSpec) {
    exists j :: 0 <= j < |specs| && specs[j] == option && option.name == name
      && forall i :: j < i < |specs| ==> specs[i].name != name
  }

  lemma {:induction false} FindsLastNamed(specs: seq<OptionSpec>, name: Text)
    ensures LastNamed(specs, name).None? <==> forall i :: 0 <= i < |specs| ==> specs[i].name != name
    ensures LastNamed(specs, name).Some? ==> IsLastNamed(specs, name, LastNamed(specs, name).value)
    decreases |specs|
  {
    if |specs| > 0 && specs[|specs| - 1].name != name {
      var init := specs[..|specs| - 1];
      FindsLastNamed(init, name);
      if LastNamed(init, name).Some? {
        var option := LastNamed(init, name).value;
        var j :| 0 <= j < |init| && init[j] == option && option.name == name
          && forall i :: j < i < |init| ==> init[i].name != name;
        assert specs[j] == option;
        assert forall i :: j < i < |init| ==> specs[i] == init[i];
      }
    }
  }

  /** Token `k` is read for itself, and not after a `--`. */
  predicate Free(roles: seq<Role>, k: nat)
    requires k < |roles|
  {
    && (k > 0 ==> !roles[k - 1].Name?)
    && forall j :: 0 <= j < k ==> roles[j] != Separator
  }

  /** Token `k` names an option that may occur here. */
  predicate NamesOption(specs: seq<OptionSpec>, tokens: seq<Text>, roles: seq<Role>, k: nat, option: OptionSpec)
    requires k < |roles| <= |tokens|
  {
    && Free(roles, k)
    && StartsWithDashes(tokens[k]) && tokens[k] != DASHES
    && LastNamed(specs, tokens[k]) == Some(option)
    && (option.repeatable || forall j :: 0 <= j < k ==> !Stores(roles[j], OptionKey(option.name)))
  }

  /** What each role asks of its token. */
  predicate Labelled(specs: seq<OptionSpec>, context: Context, tokens: seq<Text>, roles: seq<Role>, k: nat)
    requires k < |roles| <= |tokens|
  {
    match roles[k]
    case Separator => Free(roles, k) && tokens[k] == DASHES
    case Flag(option) => NamesOption(specs, tokens, roles, k, option) && option.value.None?
    case Name(option, argument) => NamesOption(specs, tokens, roles, k, option) && option.value == Some(argument)
    case Value(option) =>
      k > 0 && roles[k - 1].Name? && roles[k - 1].option == option && |tokens[k]| > 0
      && Passes(context, roles[k - 1].argument, tokens[k])
    case Positional =>
      (k > 0 ==> !roles[k - 1].Name?) && (Free(roles, k) ==> !StartsWithDashes(tokens[k]))
  }

  ghost predicate Reading(specs: seq<OptionSpec>, context: Context, tokens: seq<Text>, roles: seq<Role>) {
    && |roles| == |tokens| && !AwaitsValue(roles)
    && forall k :: 0 <= k < |roles| ==> Labelled(specs, context, tokens, roles, k)
  }

  /** What an argument asks of the values between two cuts: a greedy one gets
      all that is left, any other one value, or none when it may be left out. */
  predicate Fits(context: Context, argument: Argument, values: seq<Text>, from: nat, upTo: nat)
    requires from <= upTo <= |values|
  {
    match argument.kind
    case Rest => upTo == |values| && (from == upTo ==> argument.optional)
    case Variadic => FitsAll(context, argument, values, from, upTo)
    case CommandPath => FitsAll(context, argument, values, from, upTo)
    case _ =>
      if from < |values| && |values[from]| > 0 then upTo == from + 1 && Passes(context, argument, values[from])
      else upTo == from && argument.optional
  }

  predicate FitsAll(context: Context, argument: Argument, values: seq<Text>, from: nat, upTo: nat)
    requires from <= upTo <= |values|
  {
    && upTo == |values| && (from == upTo ==> argument.optional)
    && forall k :: from <= k < upTo ==> Passes(context, argument, values[k])
  }

  ghost predicate Cutting(context: Context, arguments: seq<Argument>, values: seq<Text>, cuts: seq<nat>) {
    && |cuts| == |arguments| + 1 && AreCuts(cuts, |values|)
    && cuts[0] == 0 && cuts[|arguments|] == |values|
    && forall i :: 0 <= i < |arguments| ==> Fits(context, arguments[i], values, cuts[i], cuts[i + 1])
  }

  /** A role for every token, and a stretch of the positional tokens for every
      argument, with nothing left over. */
  ghost predicate Assigns(action: Action, context: Context, tokens: seq<Text>, roles: seq<Role>, cuts: seq<nat>) {
    && Reading(action.options, context, tokens, roles)
    && Cutting(context, action.arguments, Picked(tokens, roles, Positional, |tokens|), cuts)
  }

  lemma LabelledIffNext(specs: seq<OptionSpec>, context: Context, tokens: seq<Text>, roles: seq<Role>, k: nat)
    requires k < |roles| <= |tokens| && (k > 0 ==> Labelled(specs, context, tokens, roles, k - 1))
    ensures Labelled(specs, context, tokens, roles, k)
            <==> NextRole(specs, context, tokens[k], roles[..k]) == Success(roles[k])
  {
    var before := roles[..k];
    assert Separator in before <==> exists j :: 0 <= j < k && roles[j] == Separator;
    assert AwaitsValue(before) <==> k > 0 && roles[k - 1].Name?;
    var found := LastNamed(specs, tokens[k]);
    if found.Some? {
      var key := OptionKey(found.value.name);
      assert Stored(before, key) <==> exists j :: 0 <= j < k && Stores(roles[j], key);
    }
  }

  lemma RolesShrink(specs: seq<OptionSpec>, context: Context, tokens: seq<Text>, n: nat)
    requires 0 < n <= |tokens| && RolesTo(specs, context, tokens, n).Success?
    ensures RolesTo(specs, context, tokens, n - 1) == Success(RolesTo(specs, context, tokens, n).value[..n - 1])
  {
    var roles := RolesTo(specs, context, tokens, n - 1).value;
    assert RolesTo(specs, context, tokens, n).value[..n - 1] == roles;
  }

  lemma {:induction false} RolesArePrefix(
    specs: seq<OptionSpec>, context: Context, tokens: seq<Text>, roles: seq<Role>, n: nat)
    requires n <= |roles| <= |tokens|
    ensures (forall k :: 0 <= k < n ==> Labelled(specs, context, tokens, roles, k))
            <==> RolesTo(specs, context, tokens, n) == Success(roles[..n])
    decreases n
  {
    if n > 0 {
      RolesArePrefix(specs, context, tokens, roles, n - 1);
      assert roles[..n] == roles[..n - 1] + [roles[n - 1]];
      if RolesTo(specs, context, tokens, n).Success? {
        RolesShrink(specs, context, tokens, n);
        assert roles[..n][..n - 1] == roles[..n - 1];
      }
      if forall k :: 0 <= k < n - 1 ==> Labelled(specs, context, tokens, roles, k) {
        LabelledIffNext(specs, context, tokens, roles, n - 1);
      }
    } else {
      assert roles[..0] == [];
    }
  }

  lemma {:induction false} RejectedIff(context: Context, argument: Argument, values: seq<Text>, from: nat)
    requires from <= |values|
    ensures FirstRejected(context, argument, values, from).None?
            <==> forall k :: from <= k < |values| ==> Accepts(context, argument, values[k])
    decreases |values| - from
  {
    if from < |values| {
      RejectedIff(context, argument, values, from + 1);
    }
  }

  lemma FitsIffCut(context: Context, argument: Argument, values: seq<Text>, from: nat, upTo: nat)
    requires from <= upTo <= |values|
    ensures Fits(context, argument, values, from, upTo) <==> CutAfter(context, argument, values, from) == Success(upTo)
  {
    RejectedIff(context, argument, values, from);
  }

  lemma {:induction false} CutsArePrefix(
    context: Context, arguments: seq<Argument>, values: seq<Text>, cuts: seq<nat>, n: nat)
    requires n <= |arguments| && n < |cuts| && AreCuts(cuts, |values|)
    ensures (cuts[0] == 0 && forall i :: 0 <= i < n ==> Fits(context, arguments[i], values, cuts[i], cuts[i + 1]))
            <==> CutsTo(context, arguments, values, n) == Success(cuts[..n + 1])
    decreases n
  {
    if n > 0 {
      CutsArePrefix(context, arguments, values, cuts, n - 1);
      assert cuts[..n + 1] == cuts[..n] + [cuts[n]];
      FitsIffCut(context, arguments[n - 1], values, cuts[n - 1], cuts[n]);
      if CutsTo(context, arguments, values, n) == Success(cuts[..n + 1]) {
        assert CutsTo(context, arguments, values, n - 1).value == cuts[..n];
      }
    } else {
      assert cuts[..1] == [cuts[0]];
    }
  }

  /** An assignment of the tokens is what parsing finds: there is at most one,
      and its arguments are the result. */
  lemma AssignmentIsParse(action: Action, context: Context, tokens: seq<Text>, roles: seq<Role>, cuts: seq<nat>)
    requires Assigns(action, context, tokens, roles, cuts)
    ensures RolesTo(action.options, context, tokens, |tokens|) == Success(roles)
    ensures var values := Picked(tokens, roles, Positional, |tokens|);
            && CutsTo(context, action.arguments, values, |action.arguments|) == Success(cuts)
            && ParseOf(action, context, tokens)
               == Success(Args(PositionalsTo(action.arguments, values, cuts, |action.arguments|),
                               OptionsTo(tokens, roles, |tokens|)))
  {
    RolesArePrefix(action.options, context, tokens, roles, |tokens|);
    assert roles[..|tokens|] == roles;
    var values := Picked(tokens, roles, Positional, |tokens|);
    CutsArePrefix(context, action.arguments, values, cuts, |action.arguments|);
    assert cuts[..|action.arguments| + 1] == cuts;
  }

  lemma ParseIsAssignment(action: Action, context: Context, tokens: seq<Text>)
    returns (roles: seq<Role>, cuts: seq<nat>)
    requires ParseOf(action, context, tokens).Success?
    ensures Assigns(action, context, tokens, roles, cuts)
  {
    roles := RolesTo(action.options, context, tokens, |tokens|).value;
    assert roles[..|tokens|] == roles;
    RolesArePrefix(action.options, context, tokens, roles, |tokens|);
    var values := Picked(tokens, roles, Positional, |tokens|);
    cuts := CutsTo(context, action.arguments, values, |action.arguments|).value;
    CutsAreCuts(context, action.arguments, values, |action.arguments|);
    assert cuts[..|action.arguments| + 1] == cuts;
    CutsArePrefix(context, action.arguments, values, cuts, |action.arguments|);
  }

  /** A command parses exactly when its tokens can be assigned. */
  lemma ParsesIffAssignable(action: Action, context: Context, tokens: seq<Text>)
    ensures ParseOf(action, context, tokens).Success?
            <==> exists roles, cuts :: Assigns(action, context, tokens, roles, cuts)
  {
    if ParseOf(action, context, tokens).Success? {
      var roles, cuts := ParseIsAssignment(action, context, tokens);
    } else if exists roles, cuts :: Assigns(action, context, tokens, roles, cuts) {
      var roles, cuts :| Assigns(action, context, tokens, roles, cuts);
      AssignmentIsParse(action, context, tokens, roles, cuts);
    }
  }

  // ---------------------------------------------------------------- errors

  /** Reading stops at token `k`, which has no role after tokens with these, or at
      the end, when an option still waits for its value. */
  ghost predicate StopsReading(specs: seq<OptionSpec>, context: Context, tokens: seq<Text>, roles: seq<Role>,
                               reason: Reason)
  {
    var k := |roles|;
    && k <= |tokens| && (forall j :: 0 <= j < k ==> Labelled(specs, context, tokens, roles, j))
    && var free := (k > 0 ==> !roles[k - 1].Name?) && forall j :: 0 <= j < k ==> roles[j] != Separator;
       match reason
       case MissingValue(name) =>
         k > 0 && roles[k - 1].Name? && roles[k - 1].option.name == name && (k == |tokens| || tokens[k] == [])
       case BadValue(argument, value) =>
         && 0 < k < |tokens| && value == tokens[k] && value != [] && roles[k - 1].Name?
         && roles[k - 1].argument.name == argument && !Passes(context, roles[k - 1].argument, value)
       case UnknownOption(token) =>
         && k < |tokens| && token == tokens[k] && free && StartsWithDashes(token) && token != DASHES
         && forall i :: 0 <= i < |specs| ==> specs[i].name != token
       case RepeatedOption(name) =>
         && k < |tokens| && name == tokens[k] && free
         && exists option :: IsLastNamed(specs, name, option) && !option.repeatable
              && exists j :: 0 <= j < k && Stores(roles[j], OptionKey(name))
       case _ => false
  }

  /** All tokens are read, the first arguments have got their values, and the next
      one cannot, or there are values left over. */
  ghost predicate StopsCutting(arguments: seq<Argument>, context: Context, values: seq<Text>, cuts: seq<nat>,
                               reason: Reason)
  {
    && 0 < |cuts| <= |arguments| + 1 && AreCuts(cuts, |values|) && cuts[0] == 0
    && (forall i :: 0 <= i < |cuts| - 1 ==> Fits(context, arguments[i], values, cuts[i], cuts[i + 1]))
    && var n := |cuts| - 1; var at := cuts[n];
       match reason
       case MissingArgument(name) =>
         && n < |arguments| && arguments[n].name == name && !arguments[n].optional
         && (at == |values| || (arguments[n].kind !in {Rest, Variadic, CommandPath} && values[at] == []))
       case BadValue(name, value) =>
         && n < |arguments| && arguments[n].name == name && arguments[n].kind != Rest
         && !Passes(context, arguments[n], value)
         && exists k :: at <= k < |values| && values[k] == value
              && (if arguments[n].kind in {Variadic, CommandPath}
                  then forall j :: at <= j < k ==> Passes(context, arguments[n], values[j]) else k == at)
       case Surplus(rest) => n == |arguments| && rest == values[at..] && rest != []
       case _ => false
  }

  /** What is reported is what is wrong: the first token that cannot be read, or
      the first argument that cannot be met, or what is left over. */
  ghost predicate Explains(action: Action, context: Context, tokens: seq<Text>, reason: Reason) {
    || (exists roles :: StopsReading(action.options, context, tokens, roles, reason))
    || (exists roles, cuts ::
          Reading(action.options, context, tokens, roles)
          && StopsCutting(action.arguments, context, Picked(tokens, roles, Positional, |tokens|), cuts, reason))
  }

  lemma {:induction false} FirstUnread(specs: seq<OptionSpec>, context: Context, tokens: seq<Text>, n: nat)
    returns (roles: seq<Role>)
    requires n <= |tokens| && RolesTo(specs, context, tokens, n).Failure?
    ensures |roles| < n && RolesTo(specs, context, tokens, |roles|) == Success(roles)
    ensures NextRole(specs, context, tokens[|roles|], roles)
            == Failure(RolesTo(specs, context, tokens, n).error)
    decreases n
  {
    match RolesTo(specs, context, tokens, n - 1)
    case Failure(_) => roles := FirstUnread(specs, context, tokens, n - 1);
    case Success(before) => roles := before;
  }

  lemma UnreadIsExplained(specs: seq<OptionSpec>, context: Context, tokens: seq<Text>, roles: seq<Role>,
                          reason: Reason)
    requires |roles| < |tokens| && RolesTo(specs, context, tokens, |roles|) == Success(roles)
    requires NextRole(specs, context, tokens[|roles|], roles) == Failure(reason)
    ensures StopsReading(specs, context, tokens, roles, reason)
  {
    var token := tokens[|roles|];
    assert roles[..|roles|] == roles;
    RolesArePrefix(specs, context, tokens, roles, |roles|);
    FindsLastNamed(specs, token);
    if reason.RepeatedOption? {
      var option := LastNamed(specs, token).value;
      assert IsLastNamed(specs, token, option);
    }
  }

  lemma {:induction false} FirstUncut(context: Context, arguments: seq<Argument>, values: seq<Text>, n: nat)
    returns (cuts: seq<nat>)
    requires n <= |arguments| && CutsTo(context, arguments, values, n).Failure?
    ensures 0 < |cuts| <= n && CutsTo(context, arguments, values, |cuts| - 1) == Success(cuts)
    ensures CutAfter(context, arguments[|cuts| - 1], values, cuts[|cuts| - 1])
            == Failure(CutsTo(context, arguments, values, n).error)
    decreases n
  {
    match CutsTo(context, arguments, values, n - 1)
    case Failure(_) => cuts := FirstUncut(context, arguments, values, n - 1);
    case Success(before) => cuts := before;
  }

  lemma {:induction false} RejectedIsFirst(context: Context, argument: Argument, values: seq<Text>, from: nat)
    requires from <= |values| && FirstRejected(context, argument, values, from).Some?
    ensures exists k :: from <= k < |values| && values[k] == FirstRejected(context, argument, values, from).value
              && !Passes(context, argument, values[k])
              && forall j :: from <= j < k ==> Passes(context, argument, values[j])
    decreases |values| - from
  {
    if Accepts(context, argument, values[from]) {
      RejectedIsFirst(context, argument, values, from + 1);
    }
  }

  lemma CutsFit(context: Context, arguments: seq<Argument>, values: seq<Text>, cuts: seq<nat>)
    requires 0 < |cuts| <= |arguments| + 1 && CutsTo(context, arguments, values, |cuts| - 1) == Success(cuts)
    ensures AreCuts(cuts, |values|) && cuts[0] == 0
    ensures forall i :: 0 <= i < |cuts| - 1 ==> Fits(context, arguments[i], values, cuts[i], cuts[i + 1])
  {
    CutsAreCuts(context, arguments, values, |cuts| - 1);
    assert cuts[..|cuts|] == cuts;
    CutsArePrefix(context, arguments, values, cuts, |cuts| - 1);
  }

  lemma UncutIsExplained(context: Context, arguments: seq<Argument>, values: seq<Text>, cuts: seq<nat>, reason: Reason)
    requires 0 < |cuts| <= |arguments| && CutsTo(context, arguments, values, |cuts| - 1) == Success(cuts)
    requires CutAfter(context, arguments[|cuts| - 1], values, cuts[|cuts| - 1]) == Failure(reason)
    ensures StopsCutting(arguments, context, values, cuts, reason)
  {
    CutsFit(context, arguments, values, cuts);
    var argument, at := arguments[|cuts| - 1], cuts[|cuts| - 1];
    if TakesAll(argument) && reason.BadValue? {
      RejectedIsFirst(context, argument, values, at);
    }
  }

  /** A parse that fails says why. */
  lemma FailureExplains(action: Action, context: Context, tokens: seq<Text>)
    requires ParseOf(action, context, tokens).Failure?
    ensures Explains(action, context, tokens, ParseOf(action, context, tokens).error)
  {
    var reason := ParseOf(action, context, tokens).error;
    match RolesTo(action.options, context, tokens, |tokens|)
    case Failure(_) =>
      var roles := FirstUnread(action.options, context, tokens, |tokens|);
      UnreadIsExplained(action.options, context, tokens, roles, reason);
    case Success(roles) =>
      assert roles[..|tokens|] == roles;
      RolesArePrefix(action.options, context, tokens, roles, |tokens|);
      if AwaitsValue(roles) {
        assert StopsReading(action.options, context, tokens, roles, reason);
      } else {
        var values := Picked(tokens, roles, Positional, |tokens|);
        match CutsTo(context, action.arguments, values, |action.arguments|)
        case Failure(_) =>
          var cuts := FirstUncut(context, action.arguments, values, |action.arguments|);
          UncutIsExplained(context, action.arguments, values, cuts, reason);
        case Success(cuts) =>
          CutsFit(context, action.arguments, values, cuts);
          assert StopsCutting(action.arguments, context, values, cuts, reason);
      }
  }

  // --------------------------------------------------------- conservation

  predicate DistinctArguments(arguments: seq<Argument>) {
    forall j, k :: 0 <= j < k < |arguments| ==> arguments[j].name != arguments[k].name
  }

  /** An argument holds its own stretch of the positional tokens. */
  lemma {:induction false} ArgumentHolds(arguments: seq<Argument>, values: seq<Text>, cuts: seq<nat>, n: nat, i: nat)
    requires i < n <= |arguments| && n < |cuts| && AreCuts(cuts, |values|)
    requires DistinctArguments(arguments)
    ensures var positionals := PositionalsTo(arguments, values, cuts, n);
            && arguments[i].name in positionals
            && positionals[arguments[i].name] == Holding(arguments[i], values[cuts[i]..cuts[i + 1]])
    decreases n
  {
    if i < n - 1 {
      ArgumentHolds(arguments, values, cuts, n - 1, i);
    }
  }

  predicate DistinctKeys(specs: seq<OptionSpec>) {
    forall j, k :: 0 <= j < k < |specs| ==> OptionKey(specs[j].name) != OptionKey(specs[k].name)
  }

  lemma {:induction false} LastNamedIsMember(specs: seq<OptionSpec>, name: Text) returns (j: nat)
    requires LastNamed(specs, name).Some?
    ensures j < |specs| && LastNamed(specs, name).value == specs[j] && specs[j].name == name
    decreases |specs|
  {
    if specs[|specs| - 1].name == name {
      j := |specs| - 1;
    } else {
      j := LastNamedIsMember(specs[..|specs| - 1], name);
    }
  }

  /** The role that stores something for an option. */
  function StoringRole(option: OptionSpec): Role {
    if option.value.None? then Flag(option) else Value(option)
  }

  lemma StoringOption(specs: seq<OptionSpec>, context: Context, tokens: seq<Text>, roles: seq<Role>, k: nat, key: Text)
    returns (j: nat)
    requires Reading(specs, context, tokens, roles) && k < |roles| && Stores(roles[k], key)
    ensures j < |specs| && roles[k] == StoringRole(specs[j]) && OptionKey(specs[j].name) == key
  {
    assert Labelled(specs, context, tokens, roles, k);
    var at := if roles[k].Flag? then k else k - 1;
    assert Labelled(specs, context, tokens, roles, at);
    j := LastNamedIsMember(specs, tokens[at]);
  }

  lemma SameKeySameRole(specs: seq<OptionSpec>, context: Context, tokens: seq<Text>, roles: seq<Role>,
                        k: nat, j: nat)
    requires Reading(specs, context, tokens, roles) && DistinctKeys(specs) && j < |specs| && k < |roles|
    ensures Stores(roles[k], OptionKey(specs[j].name)) <==> roles[k] == StoringRole(specs[j])
  {
    if Stores(roles[k], OptionKey(specs[j].name)) {
      var i := StoringOption(specs, context, tokens, roles, k, OptionKey(specs[j].name));
    }
  }

  /** What the options object holds for an option, from its tokens in order. */
  predicate OptionHolds(options: map<Text, Given>, option: OptionSpec, given: bool, values: seq<Text>) {
    var key := OptionKey(option.name);
    if !given then key !in options
    else
      && key in options
      && options[key] ==
           if option.value.None? then True
           else if option.repeatable then Many(values)
           else if |values| > 0 then One(values[|values| - 1])
           else Nothing
  }

  lemma {:induction false} OptionHoldsTo(specs: seq<OptionSpec>, context: Context, tokens: seq<Text>, roles: seq<Role>,
                                         j: nat, n: nat)
    requires Reading(specs, context, tokens, roles) && DistinctKeys(specs) && j < |specs| && n <= |roles|
    ensures var role := StoringRole(specs[j]);
            OptionHolds(OptionsTo(tokens, roles, n), specs[j], exists k :: 0 <= k < n && roles[k] == role,
                        Picked(tokens, roles, Value(specs[j]), n))
    ensures (exists k :: 0 <= k < n && roles[k] == StoringRole(specs[j])) && specs[j].value.Some? ==>
              |Picked(tokens, roles, Value(specs[j]), n)| > 0
    ensures (forall k :: 0 <= k < n ==> roles[k] != StoringRole(specs[j])) && specs[j].value.Some? ==>
              |Picked(tokens, roles, Value(specs[j]), n)| == 0
    decreases n
  {
    if n > 0 {
      OptionHoldsTo(specs, context, tokens, roles, j, n - 1);
      SameKeySameRole(specs, context, tokens, roles, n - 1, j);
      assert (exists k :: 0 <= k < n && roles[k] == StoringRole(specs[j]))
             <==> || (exists k :: 0 <= k < n - 1 && roles[k] == StoringRole(specs[j]))
                  || roles[n - 1] == StoringRole(specs[j]);
    }
  }

  /** An option that may not be repeated is given at most once. */
  lemma GivenOnce(specs: seq<OptionSpec>, context: Context, tokens: seq<Text>, roles: seq<Role>,
                  option: OptionSpec, a: nat, b: nat)
    requires Reading(specs, context, tokens, roles) && a < b < |roles|
    requires roles[a] == roles[b] == StoringRole(option)
    ensures option.repeatable
  {
    assert Labelled(specs, context, tokens, roles, b);
    assert Stores(roles[a], OptionKey(option.name));
    if option.value.Some? {
      assert Labelled(specs, context, tokens, roles, b - 1);
    }
  }

  /** An argument holds its values: as a list where it takes any number of them,
      and else joined by spaces, or nothing. */
  predicate ArgumentHeld(argument: Argument, positionals: map<Text, Given>, values: seq<Text>) {
    && argument.name in positionals
    && match argument.kind
       case Variadic => positionals[argument.name] == Many(values)
       case CommandPath => positionals[argument.name] == Many(values)
       case _ => positionals[argument.name] == if values == [] then Nothing else One(L.Joined(values))
  }

  ghost predicate ArgumentsHold(
    arguments: seq<Argument>, positionals: map<Text, Given>, values: seq<Text>, cuts: seq<nat>)
    requires |cuts| == |arguments| + 1 && AreCuts(cuts, |values|)
  {
    forall i :: 0 <= i < |arguments| ==> ArgumentHeld(arguments[i], positionals, values[cuts[i]..cuts[i + 1]])
  }

  ghost predicate OptionsHold(specs: seq<OptionSpec>, options: map<Text, Given>, tokens: seq<Text>, roles: seq<Role>)
    requires |roles| == |tokens|
  {
    forall j :: 0 <= j < |specs| ==>
      OptionHolds(options, specs[j], StoringRole(specs[j]) in roles, Picked(tokens, roles, Value(specs[j]), |tokens|))
  }

  lemma AllArgumentsHold(arguments: seq<Argument>, values: seq<Text>, cuts: seq<nat>)
    requires |cuts| == |arguments| + 1 && AreCuts(cuts, |values|) && DistinctArguments(arguments)
    ensures ArgumentsHold(arguments, PositionalsTo(arguments, values, cuts, |arguments|), values, cuts)
  {
    forall i | 0 <= i < |arguments|
      ensures ArgumentHeld(arguments[i], PositionalsTo(arguments, values, cuts, |arguments|),
                           values[cuts[i]..cuts[i + 1]])
    {
      ArgumentHolds(arguments, values, cuts, |arguments|, i);
    }
  }

  lemma AllOptionsHold(specs: seq<OptionSpec>, context: Context, tokens: seq<Text>, roles: seq<Role>)
    requires Reading(specs, context, tokens, roles) && DistinctKeys(specs)
    ensures OptionsHold(specs, OptionsTo(tokens, roles, |tokens|), tokens, roles)
  {
    forall j | 0 <= j < |specs|
      ensures OptionHolds(OptionsTo(tokens, roles, |tokens|), specs[j], StoringRole(specs[j]) in roles,
                          Picked(tokens, roles, Value(specs[j]), |tokens|))
    {
      OptionHoldsTo(specs, context, tokens, roles, j, |tokens|);
      assert StoringRole(specs[j]) in roles <==> exists k :: 0 <= k < |tokens| && roles[k] == StoringRole(specs[j]);
    }
  }

  /** A successful parse gives every token one role and every positional token
      one argument, in one way only, and loses none of their values: the
      arguments hold the positional tokens stretch by stretch, and every
      option holds its own values in order. */
  lemma TokensAreConserved(action: Action, context: Context, tokens: seq<Text>)
    returns (roles: seq<Role>, cuts: seq<nat>)
    requires ParseOf(action, context, tokens).Success?
    ensures Assigns(action, context, tokens, roles, cuts)
    ensures forall others, places ::
              Assigns(action, context, tokens, others, places) ==> others == roles && places == cuts
    ensures var args := ParseOf(action, context, tokens).value;
            && (DistinctArguments(action.arguments) ==>
                  ArgumentsHold(action.arguments, args.positionals, Picked(tokens, roles, Positional, |tokens|), cuts))
            && (DistinctKeys(action.options) ==> OptionsHold(action.options, args.options, tokens, roles))
  {
    roles, cuts := ParseIsAssignment(action, context, tokens);
    AssignmentIsParse(action, context, tokens, roles, cuts);
    forall others, places | Assigns(action, context, tokens, others, places)
      ensures others == roles && places == cuts
    {
      AssignmentIsParse(action, context, tokens, others, places);
    }
    if DistinctArguments(action.arguments) {
      AllArgumentsHold(action.arguments, Picked(tokens, roles, Positional, |tokens|), cuts);
    }
    if DistinctKeys(action.options) {
      AllOptionsHold(action.options, context, tokens, roles);
    }
  }

  // ---------------------------------------------------------------- paths

  function NodeName(node: Node): Text {
    if node.Leaf? then node.action.name else node.name
  }

  function FindNode(nodes: seq<Node>, name: Text): Option<Node> {
    if |nodes| == 0 then None
    else if NodeName(nodes[0]) == name then Some(nodes[0])
    else FindNode(nodes[1..], name)
  }

  /** Where a path leads: to an action that ends at token `index`, to a token
      that names nothing, or to a place in the tree. */
  datatype Walk = Acts(action: Action, index: int) | Unknown(token: Text) | Stops(place: Place)

  function WalkOne(place: Place, token: Text, index: nat): Walk {
    match FindNode(place.children, token)
    case None => if place.fallback.Some? then Acts(place.fallback.value, index - 1) else Unknown(token)
    case Some(Leaf(action)) => Acts(action, index)
    case Some(Group(_, next)) => Stops(next)
  }

  function WalkTo(root: Place, tokens: seq<Text>, n: nat): (walk: Walk)
    requires n <= |tokens|
    ensures walk.Acts? ==> -1 <= walk.index < n
  {
    if n == 0 then Stops(root)
    else
      match WalkTo(root, tokens, n - 1)
      case Stops(place) => WalkOne(place, tokens[n - 1], n - 1)
      case ended => ended
  }

  lemma {:induction false} WalkEnds(root: Place, tokens: seq<Text>, n: nat, limit: nat)
    requires n <= limit <= |tokens| && !WalkTo(root, tokens, n).Stops?
    ensures WalkTo(root, tokens, limit) == WalkTo(root, tokens, n)
    decreases limit
  {
    if n < limit {
      WalkEnds(root, tokens, n, limit - 1);
    }
  }

  /** Later tokens do not change where the first ones lead. */
  lemma {:induction false} WalkOfPrefix(root: Place, before: seq<Text>, more: seq<Text>, n: nat)
    requires n <= |before|
    ensures WalkTo(root, before + more, n) == WalkTo(root, before, n)
    decreases n
  {
    if n > 0 {
      WalkOfPrefix(root, before, more, n - 1);
    }
  }

  predicate Named(node: Node, name: Text) {
    match node
    case Leaf(action) => action.name == name
    case Group(own, _) => own == name
  }

  predicate NoneNamed(nodes: seq<Node>, name: Text) {
    forall k :: 0 <= k < |nodes| ==> !Named(nodes[k], name)
  }

  ghost predicate IsFirstNamed(nodes: seq<Node>, name: Text, node: Node) {
    exists k :: 0 <= k < |nodes| && nodes[k] == node && Named(node, name)
      && forall j :: 0 <= j < k ==> !Named(nodes[j], name)
  }

  /** From the root, each place is that of the first group of the place before
      that has the token's name. */
  ghost predicate Follows(root: Place, tokens: seq<Text>, places: seq<Place>) {
    && 0 < |places| <= |tokens| + 1 && places[0] == root
    && forall i :: 0 <= i < |places| - 1 ==>
         IsFirstNamed(places[i].children, tokens[i], Group(tokens[i], places[i + 1]))
  }

  /** How a walk over `n` tokens ends at the place that `m` of them have led to. */
  ghost predicate EndsAs(place: Place, tokens: seq<Text>, m: nat, n: nat, walk: Walk)
    requires n <= |tokens|
  {
    match walk
    case Stops(last) => m == n && last == place
    case Acts(action, index) =>
      m < n && ((index == m && IsFirstNamed(place.children, tokens[m], Leaf(action)))
                || (index == m - 1 && NoneNamed(place.children, tokens[m]) && place.fallback == Some(action)))
    case Unknown(token) =>
      m < n && token == tokens[m] && NoneNamed(place.children, token) && place.fallback.None?
  }

  /** The walk that the names of the tokens spell. */
  ghost predicate Spells(root: Place, tokens: seq<Text>, n: nat, walk: Walk)
    requires n <= |tokens|
  {
    exists places :: Follows(root, tokens, places) && EndsAs(places[|places| - 1], tokens, |places| - 1, n, walk)
  }

  lemma {:induction false} FindsFirstNamed(nodes: seq<Node>, name: Text)
    ensures FindNode(nodes, name).None? <==> NoneNamed(nodes, name)
    ensures FindNode(nodes, name).Some? ==> IsFirstNamed(nodes, name, FindNode(nodes, name).value)
    decreases |nodes|
  {
    if |nodes| > 0 {
      FindsFirstNamed(nodes[1..], name);
      assert NoneNamed(nodes, name) <==> !Named(nodes[0], name) && NoneNamed(nodes[1..], name) by {
        assert forall k :: 0 <= k < |nodes| - 1 ==> nodes[1..][k] == nodes[k + 1];
      }
      if NodeName(nodes[0]) == name {
        assert nodes[0] == FindNode(nodes, name).value && Named(nodes[0], name);
      } else if FindNode(nodes, name).Some? {
        var node := FindNode(nodes, name).value;
        var k :| 0 <= k < |nodes[1..]| && nodes[1..][k] == node && Named(node, name)
          && forall j :: 0 <= j < k ==> !Named(nodes[1..][j], name);
        assert nodes[k + 1] == node;
        assert forall j :: 0 < j < k + 1 ==> nodes[j] == nodes[1..][j - 1];
      }
    }
  }

  lemma OneFirstNamed(nodes: seq<Node>, name: Text, a: Node, b: Node)
    requires IsFirstNamed(nodes, name, a)
    ensures !NoneNamed(nodes, name) && (IsFirstNamed(nodes, name, b) ==> a == b)
  {
    var k :| 0 <= k < |nodes| && nodes[k] == a && Named(a, name) && forall j :: 0 <= j < k ==> !Named(nodes[j], name);
    assert Named(nodes[k], name);
    if IsFirstNamed(nodes, name, b) {
      var i :| 0 <= i < |nodes| && nodes[i] == b && Named(b, name) && forall j :: 0 <= j < i ==> !Named(nodes[j], name);
      assert !(i < k) && !(k < i);
    }
  }

  lemma NoneIsFirst(nodes: seq<Node>, name: Text)
    ensures NoneNamed(nodes, name) ==> forall node :: !IsFirstNamed(nodes, name, node)
  {
  }

  /** The path of a walk, which goes where the names say. */
  lemma {:induction false} WalkPath(root: Place, tokens: seq<Text>, n: nat) returns (places: seq<Place>)
    requires n <= |tokens|
    ensures Follows(root, tokens, places)
    ensures EndsAs(places[|places| - 1], tokens, |places| - 1, n, WalkTo(root, tokens, n))
    decreases n
  {
    if n == 0 {
      places := [root];
    } else {
      places := WalkPath(root, tokens, n - 1);
      if WalkTo(root, tokens, n - 1).Stops? {
        places := WalkGoesOn(root, tokens, n, places);
      }
    }
  }

  lemma WalkGoesOn(root: Place, tokens: seq<Text>, n: nat, places: seq<Place>) returns (more: seq<Place>)
    requires 0 < n <= |tokens| && |places| == n && Follows(root, tokens, places)
    ensures Follows(root, tokens, more)
    ensures EndsAs(more[|more| - 1], tokens, |more| - 1, n, WalkOne(places[n - 1], tokens[n - 1], n - 1))
  {
    var place, token := places[n - 1], tokens[n - 1];
    FindsFirstNamed(place.children, token);
    var node := FindNode(place.children, token);
    if node.Some? && node.value.Group? {
      assert node.value == Group(token, node.value.place);
      more := places + [node.value.place];
      forall i | 0 <= i < |more| - 1
        ensures IsFirstNamed(more[i].children, tokens[i], Group(tokens[i], more[i + 1]))
      {
        assert i < n - 1 ==> more[i] == places[i] && more[i + 1] == places[i + 1];
      }
    } else {
      more := places;
    }
  }

  lemma WalkIsSpelled(root: Place, tokens: seq<Text>, n: nat)
    requires n <= |tokens|
    ensures Spells(root, tokens, n, WalkTo(root, tokens, n))
  {
    var places := WalkPath(root, tokens, n);
  }

  lemma {:induction false} FollowsAlike(root: Place, tokens: seq<Text>, a: seq<Place>, b: seq<Place>, i: nat)
    requires Follows(root, tokens, a) && Follows(root, tokens, b) && i < |a| && i < |b|
    ensures a[i] == b[i]
    decreases i
  {
    if i > 0 {
      FollowsAlike(root, tokens, a, b, i - 1);
      OneFirstNamed(a[i - 1].children, tokens[i - 1], Group(tokens[i - 1], a[i]), Group(tokens[i - 1], b[i]));
    }
  }

  /** A path that ends one way cannot go on, or end another way. */
  lemma EndsOneWay(root: Place, tokens: seq<Text>, n: nat, a: seq<Place>, one: Walk, b: seq<Place>, other: Walk)
    requires n <= |tokens| && Follows(root, tokens, a) && Follows(root, tokens, b) && |a| <= |b|
    requires EndsAs(a[|a| - 1], tokens, |a| - 1, n, one) && EndsAs(b[|b| - 1], tokens, |b| - 1, n, other)
    ensures one == other
  {
    var m := |a| - 1;
    FollowsAlike(root, tokens, a, b, m);
    var place := a[m];
    if m < |tokens| {
      NoneIsFirst(place.children, tokens[m]);
    }
    if m < |b| - 1 {
      var group := Group(tokens[m], b[m + 1]);
      if one.Acts? {
        OneFirstNamed(place.children, tokens[m], group, Leaf(one.action));
      }
    } else if one.Acts? && other.Acts? && IsFirstNamed(place.children, tokens[m], Leaf(one.action)) {
      OneFirstNamed(place.children, tokens[m], Leaf(one.action), Leaf(other.action));
    }
  }

  /** Exactly the walk that the names spell is taken. */
  lemma WalkIffSpelled(root: Place, tokens: seq<Text>, n: nat, walk: Walk)
    requires n <= |tokens|
    ensures walk == WalkTo(root, tokens, n) <==> Spells(root, tokens, n, walk)
  {
    WalkIsSpelled(root, tokens, n);
    if Spells(root, tokens, n, walk) {
      var own := WalkTo(root, tokens, n);
      var a :| Follows(root, tokens, a) && EndsAs(a[|a| - 1], tokens, |a| - 1, n, own);
      var b :| Follows(root, tokens, b) && EndsAs(b[|b| - 1], tokens, |b| - 1, n, walk);
      if |a| <= |b| {
        EndsOneWay(root, tokens, n, a, own, b, walk);
      } else {
        EndsOneWay(root, tokens, n, b, walk, a, own);
      }
    }
  }

  method ResolvePath(root: Place, tokens: seq<Text>) returns (walk: Walk)
    ensures walk == WalkTo(root, tokens, |tokens|)
  {
    var place := root;
    var index := 0;
    while index < |tokens|
      invariant 0 <= index <= |tokens|
      invariant WalkTo(root, tokens, index) == Stops(place)
    {
      var token := tokens[index];
      var node := FindNode(place.children, token);
      if node.None? || node.value.Leaf? {
        WalkEnds(root, tokens, index + 1, |tokens|);
        if node.Some? {
          return Acts(node.value.action, index);
        }
        return if place.fallback.Some? then Acts(place.fallback.value, index - 1) else Unknown(token);
      }
      place := node.value.place;
      index := index + 1;
    }
    walk := Stops(place);
  }

  // ------------------------------------------------------------ execution

  datatype Execution = NotACommand | Unclosed | Unresolved | Rejected(reason: Reason) | Runs(action: Action, args: Args)

  datatype State = InactiveState | IncompleteState | ExecutableState | InvalidState

  function WithoutSlash(t: Text): Text {
    if |t| > 0 && t[0] == SLASH then t[1..] else t
  }

  predicate IsCommand(t: Text) {
    |t| > 0 && t[0] == SLASH
  }

  /** The values of the first `n` tokens; the command's slash is not part of
      the first one. */
  function ValuesTo(tokens: seq<L.Token>, n: nat): (values: seq<Text>)
    requires n <= |tokens|
    ensures |values| == n
  {
    if n == 0 then []
    else ValuesTo(tokens, n - 1) + [if n == 1 then WithoutSlash(tokens[0].value) else tokens[n - 1].value]
  }

  function Outcome(action: Action, context: Context, tokens: seq<Text>): Execution {
    match ParseOf(action, context, tokens)
    case Success(args) => Runs(action, args)
    case Failure(reason) => Rejected(reason)
  }

  /** What becomes of a command with these values. */
  function ExecutionOf(root: Place, context: Context, values: seq<Text>): Execution {
    match WalkTo(root, values, |values|)
    case Acts(action, index) => Outcome(action, context, values[index + 1..])
    case _ => Unresolved
  }

  ghost predicate AllClosed(tokens: seq<L.Token>) {
    forall k :: 0 <= k < |tokens| ==> tokens[k].closed
  }

  /** Without the space at both ends. */
  function Trimmed(t: Text): Text
    decreases |t|
  {
    if |t| == 0 then t
    else if IsSpace(t[0]) then Trimmed(t[1..])
    else if IsSpace(t[|t| - 1]) then Trimmed(t[..|t| - 1])
    else t
  }

  ghost predicate Executes(root: Place, context: Context, text: Text, tokens: seq<L.Token>, execution: Execution) {
    && L.Tokenizes(text, 0, tokens)
    && execution == if AllClosed(tokens) then ExecutionOf(root, context, ValuesTo(tokens, |tokens|)) else Unclosed
  }

  /** The values of the tokens, unless the quotes of one do not close. */
  method ReadValues(tokens: seq<L.Token>) returns (values: Option<seq<Text>>)
    ensures values == if AllClosed(tokens) then Some(ValuesTo(tokens, |tokens|)) else None
  {
    var read: seq<Text> := [];
    var k := 0;
    while k < |tokens|
      invariant 0 <= k <= |tokens| && read == ValuesTo(tokens, k)
      invariant forall j :: 0 <= j < k ==> tokens[j].closed
    {
      if !tokens[k].closed {
        return None;
      }
      read := read + [if k == 0 then WithoutSlash(tokens[0].value) else tokens[k].value];
      k := k + 1;
    }
    values := Some(read);
  }

  /** What runs is the action that the values spell, with what the values behind
      it parse to; what is rejected is that action; unresolved are exactly the
      values that spell none. */
  ghost predicate Answers(root: Place, context: Context, values: seq<Text>, execution: Execution) {
    match execution
    case Runs(action, args) =>
      exists index :: -1 <= index < |values| && Spells(root, values, |values|, Acts(action, index))
        && ParseOf(action, context, values[index + 1..]) == Success(args)
    case Rejected(reason) =>
      exists action, index :: -1 <= index < |values| && Spells(root, values, |values|, Acts(action, index))
        && ParseOf(action, context, values[index + 1..]) == Failure(reason)
        && Explains(action, context, values[index + 1..], reason)
    case Unresolved => forall action, index :: !Spells(root, values, |values|, Acts(action, index))
    case _ => false
  }

  lemma NoActionSpelled(root: Place, values: seq<Text>)
    requires !WalkTo(root, values, |values|).Acts?
    ensures forall action, index :: !Spells(root, values, |values|, Acts(action, index))
  {
    forall action, index
      ensures !Spells(root, values, |values|, Acts(action, index))
    {
      WalkIffSpelled(root, values, |values|, Acts(action, index));
    }
  }

  lemma ActionSpelled(root: Place, context: Context, values: seq<Text>, action: Action, index: int)
    requires WalkTo(root, values, |values|) == Acts(action, index)
    ensures -1 <= index < |values| && Spells(root, values, |values|, Acts(action, index))
    ensures Answers(root, context, values, Outcome(action, context, values[index + 1..]))
  {
    WalkIsSpelled(root, values, |values|);
    assert Spells(root, values, |values|, Acts(action, index));
    if ParseOf(action, context, values[index + 1..]).Failure? {
      FailureExplains(action, context, values[index + 1..]);
    }
  }

  lemma ExecutionAnswers(root: Place, context: Context, values: seq<Text>)
    ensures Answers(root, context, values, ExecutionOf(root, context, values))
  {
    match WalkTo(root, values, |values|)
    case Acts(action, index) => ActionSpelled(root, context, values, action, index);
    case _ => NoActionSpelled(root, values);
  }

  method ExecuteValues(root: Place, context: Context, values: seq<Text>) returns (execution: Execution)
    ensures execution == ExecutionOf(root, context, values)
    ensures Answers(root, context, values, execution)
  {
    ExecutionAnswers(root, context, values);
    var walk := ResolvePath(root, values);
    if !walk.Acts? {
      return Unresolved;
    }
    var parsed := ParseAction(walk.action, context, values[walk.index + 1..], false);
    execution := if parsed.Executable? then Runs(walk.action, parsed.args) else Rejected(parsed.error);
  }

  /** All the text but the space at both ends. */
  ghost predicate IsSpan(t: Text, left: nat, right: nat) {
    && left <= right <= |t|
    && (forall k :: 0 <= k < left || right <= k < |t| ==> IsSpace(t[k]))
    && (left < right ==> !IsSpace(t[left]) && !IsSpace(t[right - 1]))
  }

  ghost predicate IsMiddle(t: Text, middle: Text) {
    exists left: nat, right: nat :: IsSpan(t, left, right) && t[left..right] == middle
  }

  lemma SpanBehindSpace(t: Text, left: nat, right: nat)
    requires |t| > 0 && IsSpace(t[0]) && IsSpan(t[1..], left, right)
    ensures IsSpan(t, left + 1, right + 1) && t[1..][left..right] == t[left + 1..right + 1]
  {
    forall k | 0 <= k < left + 1 || right + 1 <= k < |t|
      ensures IsSpace(t[k])
    {
      assert k > 0 ==> t[k] == t[1..][k - 1];
    }
  }

  lemma SpanBeforeSpace(t: Text, left: nat, right: nat)
    requires |t| > 0 && IsSpace(t[|t| - 1]) && IsSpan(t[..|t| - 1], left, right)
    ensures IsSpan(t, left, right) && t[..|t| - 1][left..right] == t[left..right]
  {
    forall k | 0 <= k < left || right <= k < |t|
      ensures IsSpace(t[k])
    {
      assert k < |t| - 1 ==> t[k] == t[..|t| - 1][k];
    }
  }

  lemma {:induction false} TrimmedIsSpan(t: Text) returns (left: nat, right: nat)
    ensures IsSpan(t, left, right) && t[left..right] == Trimmed(t)
    decreases |t|
  {
    if |t| == 0 {
      left, right := 0, 0;
    } else if IsSpace(t[0]) {
      var l, r := TrimmedIsSpan(t[1..]);
      SpanBehindSpace(t, l, r);
      left, right := l + 1, r + 1;
    } else if IsSpace(t[|t| - 1]) {
      left, right := TrimmedIsSpan(t[..|t| - 1]);
      SpanBeforeSpace(t, left, right);
    } else {
      left, right := 0, |t|;
    }
  }

  /** The values of the tokens; the command's slash is not part of the first. */
  ghost predicate AreValues(tokens: seq<L.Token>, values: seq<Text>) {
    && |values| == |tokens|
    && forall k :: 0 <= k < |tokens| ==>
         values[k] == if k == 0 && |tokens[0].value| > 0 && tokens[0].value[0] == '/' as int
                      then tokens[0].value[1..] else tokens[k].value
  }

  lemma {:induction false} ValuesAreOfTokens(tokens: seq<L.Token>, n: nat)
    requires n <= |tokens|
    ensures AreValues(tokens[..n], ValuesTo(tokens, n))
  {
    if n > 0 {
      ValuesAreOfTokens(tokens, n - 1);
      assert forall k :: 0 <= k < n - 1 ==> tokens[..n - 1][k] == tokens[..n][k];
    }
  }

  /** What a line comes to: a line that does not start with a slash is no
      command; one with a quote that stays open is refused; any other is answered
      by its values. */
  ghost predicate AnswersLine(root: Place, context: Context, line: Text, execution: Execution) {
    if line == [] || line[0] != '/' as int then execution == NotACommand
    else
      exists tokens: seq<L.Token>, values: seq<Text> ::
        && L.Tokenizes(line, 0, tokens) && AreValues(tokens, values)
        && if AllClosed(tokens) then Answers(root, context, values, execution) else execution == Unclosed
  }

  method Execute(root: Place, context: Context, input: Text) returns (execution: Execution)
    ensures exists line :: IsMiddle(input, line) && AnswersLine(root, context, line, execution)
    ensures if IsCommand(Trimmed(input))
            then exists tokens :: Executes(root, context, Trimmed(input), tokens, execution)
            else execution == NotACommand
  {
    var trimmed := Trimmed(input);
    ghost var left, right := TrimmedIsSpan(input);
    if !IsCommand(trimmed) {
      assert AnswersLine(root, context, trimmed, NotACommand);
      return NotACommand;
    }
    var tokens := L.LexCommand(trimmed);
    var values := ReadValues(tokens);
    ValuesAreOfTokens(tokens, |tokens|);
    assert tokens[..|tokens|] == tokens;
    if values.None? {
      execution := Unclosed;
    } else {
      execution := ExecuteValues(root, context, values.value);
    }
    assert Executes(root, context, trimmed, tokens, execution);
    assert AreValues(tokens, ValuesTo(tokens, |tokens|));
    assert AnswersLine(root, context, trimmed, execution);
  }

  // ----------------------------------------------------------- completion

  function StateOf(parsed: Parsed): State {
    match parsed
    case Executable(_) => ExecutableState
    case Incomplete(_) => IncompleteState
    case Invalid(_) => InvalidState
  }

  /** What the completion's own loop over the completed tokens has seen. */
  datatype Scan = Reads(only: bool, expects: bool) | Expects | UnknownName

  function ScanOne(specs: seq<OptionSpec>, token: Text, only: bool, expects: bool): Scan {
    if expects then if |token| == 0 then Expects else Reads(only, false)
    else if only || !StartsWithDashes(token) then Reads(only, false)
    else if token == DASHES then Reads(true, false)
    else
      match FirstNamed(specs, token)
      case None => UnknownName
      case Some(option) => Reads(only, option.value.Some?)
  }

  function ScanTo(specs: seq<OptionSpec>, tokens: seq<Text>, n: nat): Scan
    requires n <= |tokens|
  {
    if n == 0 then Reads(false, false)
    else
      match ScanTo(specs, tokens, n - 1)
      case Reads(only, expects) => ScanOne(specs, tokens[n - 1], only, expects)
      case ended => ended
  }

  function WithPrefix(completed: seq<Text>, prefix: Text): seq<Text> {
    if |prefix| > 0 then completed + [prefix] else completed
  }

  function ActionState(action: Action, context: Context, completed: seq<Text>, prefix: Text): State {
    var parsed := Report(true, ParseOf(action, context, WithPrefix(completed, prefix)));
    match ScanTo(action.options, completed, |completed|)
    case UnknownName => InvalidState
    case Expects => StateOf(parsed)
    case Reads(_, expects) =>
      if !expects && StartsWithDashes(prefix) then IncompleteState else StateOf(parsed)
  }

  lemma {:induction false} ScanEnds(specs: seq<OptionSpec>, tokens: seq<Text>, n: nat, limit: nat)
    requires n <= limit <= |tokens| && !ScanTo(specs, tokens, n).Reads?
    ensures ScanTo(specs, tokens, limit) == ScanTo(specs, tokens, n)
    decreases limit
  {
    if n < limit {
      ScanEnds(specs, tokens, n, limit - 1);
    }
  }

  method CompleteAction(action: Action, context: Context, completed: seq<Text>, prefix: Text) returns (state: State)
    ensures state == ActionState(action, context, completed, prefix)
  {
    var expected := false;
    var only := false;
    var index := 0;
    while index < |completed| && !expected
      invariant 0 <= index <= |completed|
      invariant !expected ==> ScanTo(action.options, completed, index) == Reads(only, false)
      invariant expected ==>
        var scan := ScanTo(action.options, completed, |completed|);
        scan == Expects || (scan.Reads? && scan.expects)
      decreases |completed| - index, !expected
    {
      var token := completed[index];
      if !only && token == DASHES {
        only := true;
        index := index + 1;
        continue;
      }
      if !only && StartsWithDashes(token) {
        var option := FirstNamed(action.options, token);
        if option.None? {
          ScanEnds(action.options, completed, index + 1, |completed|);
          return InvalidState;
        }
        if option.value.value.Some? {
          if index + 1 == |completed| || |completed[index + 1]| == 0 {
            if index + 1 < |completed| {
              ScanEnds(action.options, completed, index + 2, |completed|);
            }
            expected := true;
          } else {
            index := index + 2;
          }
          continue;
        }
      }
      index := index + 1;
    }
    if !expected && StartsWithDashes(prefix) {
      return IncompleteState;
    }
    var parsed := ParseAction(action, context, WithPrefix(completed, prefix), true);
    state := StateOf(parsed);
  }

  /** The nodes that a path of help names leads to. */
  function HelpNodesTo(root: Place, path: seq<Text>, n: nat): Option<seq<Node>>
    requires n <= |path|
  {
    if n == 0 then Some(root.children)
    else
      match HelpNodesTo(root, path, n - 1)
      case None => None
      case Some(nodes) =>
        match FindNode(nodes, path[n - 1])
        case Some(Group(_, place)) => Some(place.children)
        case _ => None
  }

  lemma {:induction false} HelpEnds(root: Place, path: seq<Text>, n: nat, limit: nat)
    requires n <= limit <= |path| && HelpNodesTo(root, path, n).None?
    ensures HelpNodesTo(root, path, limit).None?
    decreases limit
  {
    if n < limit {
      HelpEnds(root, path, n, limit - 1);
    }
  }

  function HelpState(root: Place, path: seq<Text>, prefix: Text): State {
    match HelpNodesTo(root, path, |path|)
    case None => InvalidState
    case Some(nodes) => if |prefix| == 0 || FindNode(nodes, prefix).Some? then ExecutableState else IncompleteState
  }

  method CompleteHelpPath(root: Place, path: seq<Text>, prefix: Text) returns (state: State)
    ensures state == HelpState(root, path, prefix)
  {
    var nodes := root.children;
    var k := 0;
    while k < |path|
      invariant 0 <= k <= |path| && HelpNodesTo(root, path, k) == Some(nodes)
    {
      var node := FindNode(nodes, path[k]);
      if node.None? || node.value.Leaf? {
        HelpEnds(root, path, k + 1, |path|);
        return InvalidState;
      }
      nodes := node.value.place.children;
      k := k + 1;
    }
    state := if |prefix| == 0 || FindNode(nodes, prefix).Some? then ExecutableState else IncompleteState;
  }

  lemma {:induction false} HelpFollows(root: Place, path: seq<Text>, n: nat)
    requires n <= |path|
    ensures match HelpNodesTo(root, path, n)
            case Some(nodes) =>
              exists places: seq<Place> ::
                Follows(root, path, places) && |places| == n + 1 && places[n].children == nodes
            case None => forall places: seq<Place> :: Follows(root, path, places) ==> |places| <= n
    decreases n
  {
    if n == 0 {
      assert Follows(root, path, [root]) && [root][0].children == root.children;
    } else {
      HelpFollows(root, path, n - 1);
      var before := HelpNodesTo(root, path, n - 1);
      if before.Some? {
        var places: seq<Place> :|
          Follows(root, path, places) && |places| == n && places[n - 1].children == before.value;
        HelpGoesOn(root, path, n, places);
      }
    }
  }

  lemma HelpGoesOn(root: Place, path: seq<Text>, n: nat, places: seq<Place>)
    requires 0 < n <= |path| && |places| == n && Follows(root, path, places)
    ensures match FindNode(places[n - 1].children, path[n - 1])
            case Some(Group(_, next)) =>
              exists more: seq<Place> ::
                Follows(root, path, more) && |more| == n + 1 && more[n].children == next.children
            case _ => forall others: seq<Place> :: Follows(root, path, others) ==> |others| <= n
  {
    FindsFirstNamed(places[n - 1].children, path[n - 1]);
    var node := FindNode(places[n - 1].children, path[n - 1]);
    if node.Some? && node.value.Group? {
      var more := places + [node.value.place];
      forall i | 0 <= i < |more| - 1
        ensures IsFirstNamed(more[i].children, path[i], Group(path[i], more[i + 1]))
      {
        assert i < n - 1 ==> more[i] == places[i] && more[i + 1] == places[i + 1];
      }
      assert Follows(root, path, more) && more[n] == node.value.place;
    } else {
      forall others: seq<Place> | Follows(root, path, others)
        ensures |others| <= n
      {
        if |others| > n {
          FollowsAlike(root, path, places, others, n - 1);
          OneFirstNamed(places[n - 1].children, path[n - 1], Group(path[n - 1], others[n]),
                        if node.Some? then node.value else Group(path[n - 1], others[n]));
        }
      }
    }
  }

  /** A help path is invalid exactly when its names lead through no groups, and
      executable exactly when nothing more is typed, or the name of a child. */
  lemma HelpIffSpelled(root: Place, path: seq<Text>, prefix: Text)
    ensures HelpState(root, path, prefix) == InvalidState
            <==> forall places: seq<Place> :: Follows(root, path, places) ==> |places| <= |path|
    ensures HelpState(root, path, prefix) == ExecutableState
            <==> exists places: seq<Place> :: Follows(root, path, places) && |places| == |path| + 1
                   && (|prefix| == 0 || !NoneNamed(places[|path|].children, prefix))
    ensures HelpState(root, path, prefix) != InactiveState
  {
    HelpFollows(root, path, |path|);
    var found := HelpNodesTo(root, path, |path|);
    if found.Some? {
      var places: seq<Place> :|
        Follows(root, path, places) && |places| == |path| + 1 && places[|path|].children == found.value;
      FindsFirstNamed(found.value, prefix);
      forall others: seq<Place> | Follows(root, path, others) && |others| == |path| + 1
        ensures others[|path|] == places[|path|]
      {
        FollowsAlike(root, path, others, places, |path|);
      }
    }
  }

  predicate Parses(action: Action, context: Context, tokens: seq<Text>) {
    ParseOf(action, context, tokens).Success?
  }

  /** No action is named yet, and the prefix may be the rest of the command. */
  predicate PlaceExecutes(place: Place, context: Context, prefix: Text) {
    || (match FindNode(place.children, prefix)
        case Some(Leaf(action)) => Parses(action, context, [])
        case _ => false)
    || (place.fallback.Some? && |prefix| > 0 && Parses(place.fallback.value, context, [prefix]))
  }

  /** The state after these completed tokens and this prefix. */
  function CompletionOf(root: Place, context: Context, before: seq<Text>, prefix: Text): State {
    match WalkTo(root, before, |before|)
    case Unknown(_) => InvalidState
    case Stops(place) => if PlaceExecutes(place, context, prefix) then ExecutableState else IncompleteState
    case Acts(action, index) =>
      if action.help then HelpState(root, before[index + 1..], prefix)
      else ActionState(action, context, before[index + 1..], prefix)
  }

  /** Inside the tree: a child action, or the fallback. */
  method CompletePlace(place: Place, context: Context, prefix: Text) returns (state: State)
    ensures state == if PlaceExecutes(place, context, prefix) then ExecutableState else IncompleteState
  {
    var node := FindNode(place.children, prefix);
    if node.Some? && node.value.Leaf? {
      var parsed := ParseAction(node.value.action, context, [], true);
      if parsed.Executable? {
        return ExecutableState;
      }
    }
    if place.fallback.Some? && |prefix| > 0 {
      var parsed := ParseAction(place.fallback.value, context, [prefix], true);
      if parsed.Executable? {
        return ExecutableState;
      }
    }
    return IncompleteState;
  }

  method CompleteValues(root: Place, context: Context, before: seq<Text>, prefix: Text) returns (state: State)
    ensures state == CompletionOf(root, context, before, prefix)
  {
    var walk := ResolvePath(root, before);
    match walk {
      case Unknown(_) =>
        return InvalidState;
      case Stops(place) =>
        state := CompletePlace(place, context, prefix);
      case Acts(action, index) =>
        if action.help {
          state := CompleteHelpPath(root, before[index + 1..], prefix);
        } else {
          state := CompleteAction(action, context, before[index + 1..], prefix);
        }
    }
  }

  /** The first of the first `n` tokens that the cursor touches. */
  function ActiveIn(tokens: seq<L.Token>, cursor: nat, n: nat): (active: Option<nat>)
    requires n <= |tokens|
    ensures active.Some? ==> active.value < n && tokens[active.value].start <= cursor <= tokens[active.value].end
  {
    if n == 0 then None
    else
      match ActiveIn(tokens, cursor, n - 1)
      case Some(k) => Some(k)
      case None => if tokens[n - 1].start <= cursor <= tokens[n - 1].end then Some(n - 1) else None
  }

  /** Where the text that is being completed starts. */
  function StartOf(tokens: seq<L.Token>, cursor: nat): (start: nat)
    ensures start <= cursor
  {
    match ActiveIn(tokens, cursor, |tokens|)
    case Some(k) => tokens[k].start
    case None => cursor
  }

  /** The value typed so far of the token at the cursor. */
  function PrefixOf(text: Text, tokens: seq<L.Token>, cursor: nat): Text
    requires cursor <= |text|
  {
    var start := StartOf(tokens, cursor);
    var raw := if ActiveIn(tokens, cursor, |tokens|).Some? then L.Decoded(text[start..cursor]) else [];
    if start == 0 then WithoutSlash(raw) else raw
  }

  /** The values of those of the first `n` tokens that end by `start`. */
  function BeforeIn(tokens: seq<L.Token>, start: nat, n: nat): seq<Text>
    requires n <= |tokens|
  {
    if n == 0 then []
    else
      var values := BeforeIn(tokens, start, n - 1);
      if tokens[n - 1].end > start then values
      else values + [if |values| == 0 then WithoutSlash(tokens[n - 1].value) else tokens[n - 1].value]
  }

  ghost predicate Completes(root: Place, context: Context, text: Text, cursor: nat, tokens: seq<L.Token>, state: State)
    requires cursor <= |text|
  {
    && L.Tokenizes(text, 0, tokens)
    && state == CompletionOf(root, context, BeforeIn(tokens, StartOf(tokens, cursor), |tokens|),
                             PrefixOf(text, tokens, cursor))
  }

  function Clamped(cursor: int, length: nat): nat {
    if cursor < 0 then 0 else if cursor > length then length else cursor
  }

  lemma {:induction false} ActiveStays(tokens: seq<L.Token>, cursor: nat, n: nat, limit: nat)
    requires n <= limit <= |tokens| && ActiveIn(tokens, cursor, n).Some?
    ensures ActiveIn(tokens, cursor, limit) == ActiveIn(tokens, cursor, n)
    decreases limit
  {
    if n < limit {
      ActiveStays(tokens, cursor, n, limit - 1);
    }
  }

  method FindActive(tokens: seq<L.Token>, cursor: nat) returns (active: Option<nat>)
    ensures active == ActiveIn(tokens, cursor, |tokens|)
  {
    var k := 0;
    while k < |tokens|
      invariant 0 <= k <= |tokens| && ActiveIn(tokens, cursor, k).None?
    {
      if tokens[k].start <= cursor <= tokens[k].end {
        ActiveStays(tokens, cursor, k + 1, |tokens|);
        return Some(k);
      }
      k := k + 1;
    }
    active := None;
  }

  method ReadBefore(tokens: seq<L.Token>, start: nat) returns (before: seq<Text>)
    ensures before == BeforeIn(tokens, start, |tokens|)
  {
    before := [];
    var k := 0;
    while k < |tokens|
      invariant 0 <= k <= |tokens| && before == BeforeIn(tokens, start, k)
    {
      if tokens[k].end <= start {
        before := before + [if |before| == 0 then WithoutSlash(tokens[k].value) else tokens[k].value];
      }
      k := k + 1;
    }
  }

  /** Where the token at the cursor starts, and what of it is typed. */
  method ReadPrefix(text: Text, tokens: seq<L.Token>, cursor: nat) returns (start: nat, prefix: Text)
    requires cursor <= |text|
    ensures start == StartOf(tokens, cursor) && prefix == PrefixOf(text, tokens, cursor)
  {
    var active := FindActive(tokens, cursor);
    start := cursor;
    var raw: Text := [];
    if active.Some? {
      start := tokens[active.value].start;
      var value, _ := L.DecodeToken(text[start..cursor]);
      raw := value;
    }
    prefix := if start == 0 then WithoutSlash(raw) else raw;
  }

  /** The text being completed starts with the token that the cursor touches, and
      is what it is decoded to up to the cursor, without the command's slash; where
      it touches none, nothing is typed yet. */
  ghost predicate IsTyped(text: Text, tokens: seq<L.Token>, at: nat, start: nat, prefix: Text)
    requires at <= |text|
  {
    && start <= at
    && (if exists k :: 0 <= k < |tokens| && tokens[k].start <= at <= tokens[k].end
        then exists k :: 0 <= k < |tokens| && tokens[k].start <= at <= tokens[k].end && start == tokens[k].start
        else start == at)
    && var raw := L.Decoded(text[start..at]);
       prefix == if start == 0 && |raw| > 0 && raw[0] == '/' as int then raw[1..] else raw
  }

  /** The values of the first tokens, those that end before it. */
  ghost predicate AreBefore(tokens: seq<L.Token>, start: nat, m: nat, before: seq<Text>) {
    && m <= |tokens| && AreValues(tokens[..m], before)
    && (forall k :: 0 <= k < m ==> tokens[k].end <= start)
    && (forall k :: m <= k < |tokens| ==> tokens[k].end > start)
  }

  /** The state that the values before the cursor and what is typed call for. */
  ghost predicate StateIs(root: Place, context: Context, before: seq<Text>, prefix: Text, state: State) {
    exists walk :: Spells(root, before, |before|, walk)
      && match walk
         case Unknown(_) => state == InvalidState
         case Stops(place) =>
           state == if (exists action :: IsFirstNamed(place.children, prefix, Leaf(action))
                          && ParseOf(action, context, []).Success?)
                       || (place.fallback.Some? && prefix != []
                           && ParseOf(place.fallback.value, context, [prefix]).Success?)
                    then ExecutableState else IncompleteState
         case Acts(action, index) =>
           -1 <= index < |before|
           && state == if action.help then HelpState(root, before[index + 1..], prefix)
                       else ActionState(action, context, before[index + 1..], prefix)
  }

  lemma PlaceExecutesIff(place: Place, context: Context, prefix: Text)
    ensures PlaceExecutes(place, context, prefix) <==>
              || (exists action :: IsFirstNamed(place.children, prefix, Leaf(action))
                    && ParseOf(action, context, []).Success?)
              || (place.fallback.Some? && prefix != [] && ParseOf(place.fallback.value, context, [prefix]).Success?)
  {
    FindsFirstNamed(place.children, prefix);
    NoneIsFirst(place.children, prefix);
    var node := FindNode(place.children, prefix);
    if action :| IsFirstNamed(place.children, prefix, Leaf(action)) && ParseOf(action, context, []).Success? {
      if node.Some? {
        OneFirstNamed(place.children, prefix, Leaf(action), node.value);
      }
    }
  }

  lemma CompletionIsState(root: Place, context: Context, before: seq<Text>, prefix: Text)
    ensures StateIs(root, context, before, prefix, CompletionOf(root, context, before, prefix))
  {
    var walk := WalkTo(root, before, |before|);
    WalkIsSpelled(root, before, |before|);
    if walk.Stops? {
      PlaceExecutesIff(walk.place, context, prefix);
    }
  }

  lemma {:induction false} BeforeIsPrefix(text: Text, tokens: seq<L.Token>, start: nat, n: nat) returns (m: nat)
    requires n <= |tokens| && L.Layout(text, 0, |text|, tokens)
    ensures m <= n && AreValues(tokens[..m], BeforeIn(tokens, start, n))
    ensures forall k :: 0 <= k < m ==> tokens[k].end <= start
    ensures forall k :: m <= k < n ==> tokens[k].end > start
    decreases n
  {
    if n == 0 {
      m := 0;
    } else {
      m := BeforeIsPrefix(text, tokens, start, n - 1);
      if tokens[n - 1].end <= start {
        assert forall k :: 0 <= k < n - 1 ==> tokens[k].end <= tokens[n - 1].start;
        m := n;
        assert forall k :: 0 <= k < n - 1 ==> tokens[..n - 1][k] == tokens[..n][k];
      }
    }
  }

  lemma {:induction false} ActiveIff(tokens: seq<L.Token>, cursor: nat, n: nat)
    requires n <= |tokens|
    ensures ActiveIn(tokens, cursor, n).None? <==>
              forall k :: 0 <= k < n ==> !(tokens[k].start <= cursor <= tokens[k].end)
    decreases n
  {
    if n > 0 {
      ActiveIff(tokens, cursor, n - 1);
    }
  }

  lemma PrefixIsTyped(text: Text, tokens: seq<L.Token>, at: nat)
    requires at <= |text|
    ensures IsTyped(text, tokens, at, StartOf(tokens, at), PrefixOf(text, tokens, at))
  {
    ActiveIff(tokens, at, |tokens|);
    var start := StartOf(tokens, at);
    if ActiveIn(tokens, at, |tokens|).None? {
      assert text[start..at] == [] && L.Decoded([]) == [];
    }
  }

  /** What completion answers at a cursor, which is moved into the text. */
  ghost predicate AnswersCursor(root: Place, context: Context, text: Text, at: nat, state: State)
    requires at <= |text|
  {
    exists tokens: seq<L.Token>, start: nat, m: nat, before: seq<Text>, prefix: Text ::
      && L.Tokenizes(text, 0, tokens) && IsTyped(text, tokens, at, start, prefix)
      && AreBefore(tokens, start, m, before) && StateIs(root, context, before, prefix, state)
  }

  method Complete(root: Place, context: Context, text: Text, cursor: int) returns (state: State)
    ensures if |text| > 0 && text[0] == '/' as int
            then AnswersCursor(root, context, text,
                               if cursor < 0 then 0 else if cursor > |text| then |text| else cursor, state)
            else state == InactiveState
    ensures IsCommand(text) ==>
              exists tokens :: Completes(root, context, text, Clamped(cursor, |text|), tokens, state)
  {
    if !IsCommand(text) {
      return InactiveState;
    }
    var at := Clamped(cursor, |text|);
    var tokens := L.LexCommand(text);
    var start, prefix := ReadPrefix(text, tokens, at);
    var before := ReadBefore(tokens, start);
    state := CompleteValues(root, context, before, prefix);
    assert Completes(root, context, text, at, tokens, state);
    PrefixIsTyped(text, tokens, at);
    ghost var m := BeforeIsPrefix(text, tokens, start, |tokens|);
    CompletionIsState(root, context, before, prefix);
    assert AreBefore(tokens, start, m, before);
  }

  // --------------------------------------------- completion and execution

  lemma {:induction false} NamesAgree(specs: seq<OptionSpec>, name: Text)
    requires DistinctNames(specs)
    ensures FirstNamed(specs, name) == LastNamed(specs, name)
    decreases |specs|
  {
    var j: nat := 0;
    while j < |specs| && specs[j].name != name
      invariant 0 <= j <= |specs| && forall k :: 0 <= k < j ==> specs[k].name != name
    {
      j := j + 1;
    }
    FirstAt(specs, name, j);
    LastAt(specs, name, j);
  }

  lemma {:induction false} FirstAt(specs: seq<OptionSpec>, name: Text, j: nat)
    requires j <= |specs| && (forall k :: 0 <= k < j ==> specs[k].name != name)
    requires j < |specs| ==> specs[j].name == name
    ensures FirstNamed(specs, name) == if j < |specs| then Some(specs[j]) else None
    decreases |specs|
  {
    if j > 0 {
      FirstAt(specs[1..], name, j - 1);
    }
  }

  lemma {:induction false} LastAt(specs: seq<OptionSpec>, name: Text, j: nat)
    requires j <= |specs| && (forall k :: 0 <= k < |specs| && k != j ==> specs[k].name != name)
    requires j < |specs| ==> specs[j].name == name
    ensures LastNamed(specs, name) == if j < |specs| then Some(specs[j]) else None
    decreases |specs|
  {
    if |specs| > 0 && j != |specs| - 1 {
      LastAt(specs[..|specs| - 1], name, if j < |specs| then j else |specs| - 1);
    }
  }

  /** The two loops over the tokens read them alike. */
  lemma {:induction false} ScanAgrees(specs: seq<OptionSpec>, context: Context, tokens: seq<Text>, n: nat)
    requires n <= |tokens| && DistinctNames(specs) && RolesTo(specs, context, tokens, n).Success?
    ensures var roles := RolesTo(specs, context, tokens, n).value;
            ScanTo(specs, tokens, n) == Reads(Separator in roles, AwaitsValue(roles))
    decreases n
  {
    if n > 0 {
      RolesShrink(specs, context, tokens, n);
      ScanAgrees(specs, context, tokens, n - 1);
      NamesAgree(specs, tokens[n - 1]);
      var roles := RolesTo(specs, context, tokens, n).value;
      assert roles == roles[..n - 1] + [roles[n - 1]];
    }
  }

  lemma {:induction false} RolesOfPrefix(
    specs: seq<OptionSpec>, context: Context, before: seq<Text>, more: seq<Text>, n: nat)
    requires n <= |before|
    ensures RolesTo(specs, context, before + more, n) == RolesTo(specs, context, before, n)
    decreases n
  {
    if n > 0 {
      RolesOfPrefix(specs, context, before, more, n - 1);
    }
  }

  /** The last token is read as the name of an option, or could have been one
      but for an earlier `--`; it is not the value of an option. */
  predicate EndsInDashes(action: Action, context: Context, tokens: seq<Text>) {
    && |tokens| > 0 && StartsWithDashes(tokens[|tokens| - 1])
    && match RolesTo(action.options, context, tokens, |tokens|)
       case Success(roles) => !roles[|roles| - 1].Value?
       case Failure(_) => true
  }

  /** While an action is being typed, the completion calls it executable
      exactly when executing it now would get past the parser, unless its last
      token begins with `--` and is not the value of an option. */
  lemma ActionStateTellsParse(action: Action, context: Context, completed: seq<Text>, prefix: Text)
    requires DistinctNames(action.options) && |prefix| > 0
    ensures ActionState(action, context, completed, prefix) == ExecutableState
            <==> (ParseOf(action, context, completed + [prefix]).Success?
                  && !EndsInDashes(action, context, completed + [prefix]))
  {
    var tokens := completed + [prefix];
    var specs := action.options;
    RolesOfPrefix(specs, context, completed, [prefix], |completed|);
    if RolesTo(specs, context, tokens, |tokens|).Success? {
      RolesShrink(specs, context, tokens, |tokens|);
      ScanAgrees(specs, context, completed, |completed|);
      var before := RolesTo(specs, context, completed, |completed|).value;
      assert NextRole(specs, context, prefix, before).Success?;
    }
  }

  /** Where the completion's loop does not wait for a value, the parser's has not
      found one missing. */
  lemma {:induction false} UnreadIsNotMissing(specs: seq<OptionSpec>, context: Context, tokens: seq<Text>, n: nat)
    requires n <= |tokens| && DistinctNames(specs) && RolesTo(specs, context, tokens, n).Failure?
    ensures var reason := RolesTo(specs, context, tokens, n).error;
            ScanTo(specs, tokens, n).Expects? || (!reason.MissingValue? && !reason.MissingArgument?)
    decreases n
  {
    if RolesTo(specs, context, tokens, n - 1).Failure? {
      UnreadIsNotMissing(specs, context, tokens, n - 1);
    } else {
      ScanAgrees(specs, context, tokens, n - 1);
      NamesAgree(specs, tokens[n - 1]);
    }
  }

  /** With nothing more typed, the completion says what the parser says: executable,
      incomplete when a value or an argument is missing, and invalid otherwise. */
  lemma StateBetweenTokens(action: Action, context: Context, completed: seq<Text>)
    requires DistinctNames(action.options)
    ensures ActionState(action, context, completed, [])
            == match ParseOf(action, context, completed)
               case Success(_) => ExecutableState
               case Failure(reason) =>
                 if reason.MissingValue? || reason.MissingArgument? then IncompleteState else InvalidState
  {
    var specs, n := action.options, |completed|;
    if ScanTo(specs, completed, n) == UnknownName {
      if RolesTo(specs, context, completed, n).Success? {
        ScanAgrees(specs, context, completed, n);
      } else {
        UnreadIsNotMissing(specs, context, completed, n);
      }
    }
  }

  lemma {:induction false} EndsAtLastToken(text: Text, tokens: seq<L.Token>)
    requires L.Tokenizes(text, 0, tokens) && IsCommand(text) && !IsSpace(text[|text| - 1])
    ensures |tokens| > 0 && tokens[|tokens| - 1].end == |text| && tokens[0].start == 0
    ensures tokens[|tokens| - 1].value == L.Decoded(text[tokens[|tokens| - 1].start..|text|])
    ensures tokens[|tokens| - 1].start == 0 <==> |tokens| == 1
  {
    assert L.Inside(tokens, |text| - 1);
    assert L.Inside(tokens, 0);
    L.TokenAt(text, tokens, |tokens| - 1);
  }

  lemma {:induction false} NoneBefore(text: Text, tokens: seq<L.Token>, n: nat)
    requires L.Tokenizes(text, 0, tokens) && n < |tokens| && tokens[|tokens| - 1].end == |text|
    ensures ActiveIn(tokens, |text|, n).None?
    ensures BeforeIn(tokens, tokens[|tokens| - 1].start, n) == ValuesTo(tokens, n)
    decreases n
  {
    if n > 0 {
      NoneBefore(text, tokens, n - 1);
    }
  }

  lemma {:induction false} AlreadyTrimmed(text: Text)
    requires IsCommand(text) && !IsSpace(text[|text| - 1])
    ensures Trimmed(text) == text
  {
  }

  lemma {:induction false} LastIsActive(text: Text, tokens: seq<L.Token>)
    requires L.Tokenizes(text, 0, tokens) && |tokens| > 0 && tokens[|tokens| - 1].end == |text|
    ensures ActiveIn(tokens, |text|, |tokens|) == Some(|tokens| - 1)
    ensures BeforeIn(tokens, StartOf(tokens, |text|), |tokens|) == ValuesTo(tokens, |tokens| - 1)
  {
    NoneBefore(text, tokens, |tokens| - 1);
  }

  lemma {:induction false} LastValue(text: Text, tokens: seq<L.Token>, last: nat)
    requires |tokens| == last + 1 && ActiveIn(tokens, |text|, |tokens|) == Some(last)
    requires tokens[last].start <= |text| && (tokens[last].start == 0 <==> last == 0)
    requires tokens[last].value == L.Decoded(text[tokens[last].start..|text|])
    ensures ValuesTo(tokens, |tokens|) == ValuesTo(tokens, last) + [PrefixOf(text, tokens, |text|)]
  {
    assert StartOf(tokens, |text|) == tokens[last].start;
  }

  /** With the cursor at the end, the completed tokens and the prefix are the
      values that execution sees. */
  lemma {:induction false} FocusAtEnd(text: Text, tokens: seq<L.Token>)
    requires L.Tokenizes(text, 0, tokens) && IsCommand(text) && !IsSpace(text[|text| - 1])
    ensures |tokens| > 0
    ensures BeforeIn(tokens, StartOf(tokens, |text|), |tokens|) == ValuesTo(tokens, |tokens| - 1)
    ensures ValuesTo(tokens, |tokens|) == ValuesTo(tokens, |tokens| - 1) + [PrefixOf(text, tokens, |text|)]
  {
    EndsAtLastToken(text, tokens);
    LastIsActive(text, tokens);
    LastValue(text, tokens, |tokens| - 1);
  }

  /** The prefix names a child of a group whose fallback would take it too. */
  predicate Shadowed(root: Place, context: Context, before: seq<Text>, prefix: Text) {
    match WalkTo(root, before, |before|)
    case Stops(place) =>
      && FindNode(place.children, prefix).Some?
      && place.fallback.Some? && Parses(place.fallback.value, context, [prefix])
    case _ => false
  }

  /** The command ends in an option's name, or in what looks like one. */
  predicate TypesOption(root: Place, context: Context, before: seq<Text>, prefix: Text) {
    match WalkTo(root, before, |before|)
    case Acts(action, index) => EndsInDashes(action, context, before[index + 1..] + [prefix])
    case _ => false
  }

  /** What the catalog has to keep to for its completion to be told apart. */
  predicate Ordinary(root: Place, before: seq<Text>) {
    match WalkTo(root, before, |before|)
    case Acts(action, _) => !action.help && DistinctNames(action.options)
    case _ => true
  }

  lemma {:induction false} ValuesTellExecution(root: Place, context: Context, before: seq<Text>, prefix: Text)
    requires |prefix| > 0 && Ordinary(root, before)
    ensures CompletionOf(root, context, before, prefix) == ExecutableState
            <==> || (ExecutionOf(root, context, before + [prefix]).Runs? && !TypesOption(root, context, before, prefix))
                 || Shadowed(root, context, before, prefix)
  {
    var values := before + [prefix];
    WalkOfPrefix(root, before, [prefix], |before|);
    match WalkTo(root, before, |before|) {
      case Unknown(_) =>
        WalkEnds(root, values, |before|, |values|);
      case Acts(action, index) =>
        WalkEnds(root, values, |before|, |values|);
        assert values[index + 1..] == before[index + 1..] + [prefix];
        ActionStateTellsParse(action, context, before[index + 1..], prefix);
      case Stops(place) =>
        assert values[|before|..] == [prefix] && values[|values|..] == [];
    }
  }

  /** At the end of a trimmed command whose quotes are closed and whose last
      token is not empty, the completion says executable exactly when execution
      would get past the parser, with two exceptions: a last token that is
      typed as an option's name is never called executable, and a prefix that
      names a child of a group always is when the group's fallback takes it. */
  lemma {:induction false} CompletionTellsExecution(root: Place, context: Context, text: Text, tokens: seq<L.Token>,
                                 state: State, execution: Execution)
    requires IsCommand(text) && !IsSpace(text[|text| - 1]) && AllClosed(tokens)
    requires Completes(root, context, text, |text|, tokens, state)
    requires Executes(root, context, Trimmed(text), tokens, execution)
    requires |PrefixOf(text, tokens, |text|)| > 0
    requires Ordinary(root, BeforeIn(tokens, StartOf(tokens, |text|), |tokens|))
    ensures var before := BeforeIn(tokens, StartOf(tokens, |text|), |tokens|);
            var prefix := PrefixOf(text, tokens, |text|);
            state == ExecutableState
            <==> || (execution.Runs? && !TypesOption(root, context, before, prefix))
                 || Shadowed(root, context, before, prefix)
  {
    AlreadyTrimmed(text);
    FocusAtEnd(text, tokens);
    ValuesTellExecution(root, context, ValuesTo(tokens, |tokens| - 1), PrefixOf(text, tokens, |text|));
  }

  /** An action of one argument that takes any text. */
  lemma OneTextParses(action: Action, context: Context, token: Text)
    requires |token| > 0 && !StartsWithDashes(token) && |action.arguments| == 1
    requires action.arguments[0].kind == Plain && !action.arguments[0].checked
    ensures Parses(action, context, [token])
  {
    var roles, cuts: seq<nat> := [Positional], [0, 1];
    assert Labelled(action.options, context, [token], roles, 0);
    assert Picked([token], roles, Positional, 1) == Picked([token], roles, Positional, 0) + [token] == [token];
    assert Fits(context, action.arguments[0], [token], cuts[0], cuts[1]);
    assert Assigns(action, context, [token], roles, cuts);
    AssignmentIsParse(action, context, [token], roles, cuts);
  }

  /** A group whose fallback takes any text, and which has a child group: the
      child's name is called executable, and does not execute. */
  lemma ShadowMisleads(context: Context, fallback: Action, outer: Text, name: Text) returns (root: Place)
    requires |name| > 0 && !StartsWithDashes(name) && |fallback.arguments| == 1
    requires fallback.arguments[0].kind == Plain && !fallback.arguments[0].checked
    ensures Ordinary(root, [outer])
    ensures CompletionOf(root, context, [outer], name) == ExecutableState
    ensures ExecutionOf(root, context, [outer] + [name]) == Unresolved
  {
    var leaf := Place([], None);
    var inner := Place([Group(name, leaf)], Some(fallback));
    root := Place([Group(outer, inner)], None);
    assert WalkTo(root, [outer], 0) == Stops(root);
    assert WalkTo(root, [outer], 1) == Stops(inner);
    OneTextParses(fallback, context, name);
    WalkOfPrefix(root, [outer], [name], 1);
    assert WalkTo(root, [outer] + [name], 2) == WalkOne(inner, name, 1) == Stops(leaf);
  }

  /** A flag typed to its end is called incomplete, and executes. */
  lemma OptionNameMisleads(context: Context, action: Action, flag: OptionSpec) returns (root: Place)
    requires action.options == [flag] && flag.value.None? && |action.arguments| == 0 && !action.help
    requires StartsWithDashes(flag.name) && flag.name != DASHES && |action.name| > 0
    ensures Ordinary(root, [action.name])
    ensures CompletionOf(root, context, [action.name], flag.name) == IncompleteState
    ensures ExecutionOf(root, context, [action.name] + [flag.name]).Runs?
  {
    root := Place([Leaf(action)], None);
    assert WalkTo(root, [action.name], 0) == Stops(root);
    assert WalkTo(root, [action.name], 1) == Acts(action, 0);
    WalkOfPrefix(root, [action.name], [flag.name], 1);
    WalkEnds(root, [action.name] + [flag.name], 1, 2);
    OneFlagParses(action, context, flag);
  }

  lemma OneFlagParses(action: Action, context: Context, flag: OptionSpec)
    requires action.options == [flag] && flag.value.None? && |action.arguments| == 0
    requires StartsWithDashes(flag.name) && flag.name != DASHES
    ensures Parses(action, context, [flag.name])
  {
    var roles, cuts: seq<nat> := [Flag(flag)], [0];
    assert LastNamed(action.options, flag.name) == Some(flag);
    assert Labelled(action.options, context, [flag.name], roles, 0);
    assert |Picked([flag.name], roles, Positional, 1)| == |Picked([flag.name], roles, Positional, 0)| == 0;
    assert Assigns(action, context, [flag.name], roles, cuts);
    AssignmentIsParse(action, context, [flag.name], roles, cuts);
  }
}
