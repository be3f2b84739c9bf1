/** The BuildDerivation request: the client's checks and writer, the server's decoder, and
    which requests arrive as they were written. */
module BuildDerivation {
  import opened Basics
  import opened Bytes
  import opened Wire
  import opened Codec
  import opened Budget
  import opened Streams
  import opened Metered
  import opened Checked
  import opened StorePaths

  const MAXIMUM_OUTPUTS := 16
  const MAXIMUM_INPUTS := 4096
  const MAXIMUM_ARGUMENTS := 1024
  const MAXIMUM_ENVIRONMENT := 4096
  const NAME_BYTES := 256
  const PLATFORM_BYTES := 64
  const BUILDER_BYTES := 4096
  const ARGUMENT_BYTES := 64 * 1024
  const KEY_BYTES := 4096
  const VALUE_BYTES := 1024 * 1024
  const ALGORITHM_BYTES := 64
  const HASH_BYTES := 256
  /** `size_of::<BuildDerivationOutput>()` and `size_of::<(Vec<u8>, Vec<u8>)>()`. */
  const OUTPUT_SIZE := 120
  const VARIABLE_SIZE := 48

  /** Name, path, hash algorithm and hash. */
  type Output = (seq<byte>, (seq<byte>, (seq<byte>, seq<byte>)))

  /** Key and value. */
  type Variable = (seq<byte>, seq<byte>)

  function Name(o: Output): seq<byte> { o.0 }

  function OutputPath(o: Output): seq<byte> { o.1.0 }

  function Algorithm(o: Output): seq<byte> { o.1.1.0 }

  function Hash(o: Output): seq<byte> { o.1.1.1 }

  function VariableKey(v: Variable): seq<byte> { v.0 }

  function VariableValue(v: Variable): seq<byte> { v.1 }

  datatype Build = Build(drv: seq<byte>, outputs: seq<Output>, inputs: Strings, platform: seq<byte>, builder: seq<byte>,
                         arguments: Strings, environment: seq<Variable>)

  // ----- the server's checks -----

  predicate NoNul(v: seq<byte>) { 0 !in v }

  predicate Text(v: seq<byte>) { v != [] && 0 !in v }

  predicate DrvOk(v: seq<byte>) { ValidBuildPath(v) && EndsWith(v, DRV) }

  predicate HashOk(h: (seq<byte>, seq<byte>)) { ValidHash(h.0, h.1) }

  predicate IsZero(n: u64) { n == 0 }

  function NameFits(before: seq<Output>): seq<byte> -> bool {
    v => Text(v) && v !in Keys(Name, before)
  }

  function PathFits(before: seq<Output>): seq<byte> -> bool {
    v => ValidBuildPath(v) && v !in Keys(OutputPath, before)
  }

  function KeyFits(before: seq<Variable>): seq<byte> -> bool {
    v => Text(v) && EQUALS !in v && v !in Keys(VariableKey, before)
  }

  // ----- the grammars -----

  ghost function HashPair(): Grammar<(seq<byte>, seq<byte>)> {
    Row(AnyString(ALGORITHM_BYTES), AnyString(HASH_BYTES))
  }

  ghost function HashGrammar(): Grammar<(seq<byte>, seq<byte>)> {
    Sealed(Guarded(HashPair(), HashOk))
  }

  ghost function PairWeight(): ((seq<byte>, seq<byte>)) -> nat {
    RowCost(StringWeight(), StringWeight())
  }

  ghost function OutputTail(before: seq<Output>): Grammar<(seq<byte>, (seq<byte>, seq<byte>))> {
    Row(Str(MAXIMUM_PATH, PathFits(before)), HashGrammar())
  }

  ghost function TailWeight(): ((seq<byte>, (seq<byte>, seq<byte>))) -> nat {
    RowCost(StringWeight(), PairWeight())
  }

  ghost function OutputItemBody(): seq<Output> -> Grammar<Output> {
    before => Row(Str(NAME_BYTES, NameFits(before)), OutputTail(before))
  }

  ghost function OutputItem(): seq<Output> -> Grammar<Output> {
    Sealed(OutputItemBody())
  }

  ghost function OutputWeight(): Output -> nat {
    RowCost(StringWeight(), TailWeight())
  }

  ghost function VariableItemBody(): seq<Variable> -> Grammar<Variable> {
    before => Row(Str(KEY_BYTES, KeyFits(before)), Str(VALUE_BYTES, NoNul))
  }

  ghost function VariableItem(): seq<Variable> -> Grammar<Variable> {
    Sealed(VariableItemBody())
  }

  ghost function OutputsGrammar(): Grammar<seq<Output>> {
    ListOf(OutputItem(), MAXIMUM_OUTPUTS)
  }

  ghost function OutputsWeight(): seq<Output> -> nat {
    ListWeight(OUTPUT_SIZE, OutputWeight())
  }

  ghost function InputsGrammar(): Grammar<Strings> {
    StringsGrammar(MAXIMUM_INPUTS, MAXIMUM_PATH, ValidBuildPath, true)
  }

  ghost function ArgumentsGrammar(): Grammar<Strings> {
    StringsGrammar(MAXIMUM_ARGUMENTS, ARGUMENT_BYTES, NoNul, false)
  }

  ghost function EnvironmentGrammar(): Grammar<seq<Variable>> {
    ListOf(VariableItem(), MAXIMUM_ENVIRONMENT)
  }

  ghost function EnvironmentWeight(): seq<Variable> -> nat {
    ListWeight(VARIABLE_SIZE, PairWeight())
  }

  // ----- the decoder -----

  method ReadHash(reader: Reader, budget: SessionBudget) returns (r: Result<(seq<byte>, seq<byte>)>)
    requires budget.Valid()
    modifies reader, budget
    ensures budget.Valid()
    ensures MetersOpen(HashGrammar(), PairWeight(), old(reader.View()), old(Room(budget)), r, reader.View(),
            old(Room(budget)) - Room(budget))
  {
    Unsealed(Guarded(HashPair(), HashOk));
    RowWeighs(AnyString(ALGORITHM_BYTES), StringWeight(), AnyString(HASH_BYTES), StringWeight(), reader.View().logical,
            Room(budget));
    var algorithm := ReadString(reader, ALGORITHM_BYTES, budget);
    if algorithm.Failure? { return Failure; }
    var hash := ReadString(reader, HASH_BYTES, budget);
    if hash.Failure? || !HashOk((algorithm.value, hash.value)) { return Failure; }
    RowCosts(StringWeight(), StringWeight(), algorithm.value, hash.value);
    return Success((algorithm.value, hash.value));
  }

  /** Each field is checked before the next is read. */
  method ReadOutputParts(reader: Reader, seen: seq<Output>, budget: SessionBudget) returns (r: Result<Output>)
    requires budget.Valid()
    modifies reader, budget
    ensures budget.Valid()
    ensures MetersOpen(OutputItem()(seen), OutputWeight(), old(reader.View()), old(Room(budget)), r, reader.View(),
            old(Room(budget)) - Room(budget))
  {
    Unsealed(OutputItemBody());
    RowWeighs(Str(NAME_BYTES, NameFits(seen)), StringWeight(), OutputTail(seen), TailWeight(), reader.View().logical, Room(budget));
    var name := ReadChecked(reader, NAME_BYTES, NameFits(seen), budget);
    if name.Failure? { return Failure; }
    RowWeighs(Str(MAXIMUM_PATH, PathFits(seen)), StringWeight(), HashGrammar(), PairWeight(), reader.View().logical, Room(budget));
    var path := ReadChecked(reader, MAXIMUM_PATH, PathFits(seen), budget);
    if path.Failure? { return Failure; }
    var hash := ReadHash(reader, budget);
    if hash.Failure? { return Failure; }
    RowCosts(StringWeight(), TailWeight(), name.value, (path.value, hash.value));
    RowCosts(StringWeight(), PairWeight(), path.value, hash.value);
    return Success((name.value, (path.value, hash.value)));
  }

  /** A failure gives back what was charged. */
  method ReadOutput(reader: Reader, seen: seq<Output>, budget: SessionBudget) returns (r: Result<Output>)
    requires budget.Valid()
    modifies reader, budget
    ensures budget.Valid() && Kept(r, budget.retained - old(budget.retained))
    ensures Meters(OutputItem()(seen), OutputWeight(), old(reader.View()), old(Room(budget)), r, reader.View(),
            old(Room(budget)) - Room(budget))
  {
    var start := budget.retained;
    r := ReadOutputParts(reader, seen, budget);
    if r.Failure? {
      budget.Release(budget.retained - start);
    }
  }

  method ReadOutputs(reader: Reader, budget: SessionBudget) returns (r: Result<seq<Output>>)
    requires budget.Valid()
    modifies reader, budget
    ensures budget.Valid() && Kept(r, budget.retained - old(budget.retained))
    ensures Meters(OutputsGrammar(), OutputsWeight(), old(reader.View()), old(Room(budget)), r, reader.View(),
            old(Room(budget)) - Room(budget))
  {
    ghost var item, cost := OutputItem(), OutputWeight();
    ghost var before, room := reader.View(), Room(budget);
    var start := budget.retained;
    var count := ReadCount(reader, MAXIMUM_OUTPUTS, OUTPUT_SIZE, budget);
    ListStart(item, MAXIMUM_OUTPUTS, OUTPUT_SIZE, cost, before, room, count, reader.View(), Room(budget));
    if count.Failure? {
      return Failure;
    }
    var values: seq<Output> := [];
    var left: nat := count.value;
    ghost var now, room1 := reader.View(), Room(budget);
    while left > 0
      invariant budget.Valid() && start <= budget.retained && now == reader.View() && room1 == Room(budget)
      invariant ListStage(item, MAXIMUM_OUTPUTS, OUTPUT_SIZE, cost, before, room, left, values, now, room1)
    {
      var value := ReadOutput(reader, values, budget);
      ghost var after, room2 := reader.View(), Room(budget);
      ListItem(item, MAXIMUM_OUTPUTS, OUTPUT_SIZE, cost, before, room, left, values, now, room1, value, after, room2);
      if value.Failure? {
        budget.Release(budget.retained - start);
        return Failure;
      }
      values, left, now, room1 := Push(values, value), left - 1, after, room2;
    }
    ListDone(item, MAXIMUM_OUTPUTS, OUTPUT_SIZE, cost, before, room, left, values, now, room1);
    return Success(values);
  }

  /** The key is checked before the value is read. */
  method ReadVariable(reader: Reader, seen: seq<Variable>, budget: SessionBudget) returns (r: Result<Variable>)
    requires budget.Valid()
    modifies reader, budget
    ensures budget.Valid() && Kept(r, budget.retained - old(budget.retained))
    ensures Meters(VariableItem()(seen), PairWeight(), old(reader.View()), old(Room(budget)), r, reader.View(),
            old(Room(budget)) - Room(budget))
  {
    Unsealed(VariableItemBody());
    RowWeighs(Str(KEY_BYTES, KeyFits(seen)), StringWeight(), Str(VALUE_BYTES, NoNul), StringWeight(), reader.View().logical,
            Room(budget));
    var start := budget.retained;
    var key := ReadChecked(reader, KEY_BYTES, KeyFits(seen), budget);
    if key.Failure? { return Failure; }
    var value := ReadChecked(reader, VALUE_BYTES, NoNul, budget);
    if value.Failure? {
      budget.Release(budget.retained - start);
      return Failure;
    }
    RowCosts(StringWeight(), StringWeight(), key.value, value.value);
    return Success((key.value, value.value));
  }

  method ReadEnvironment(reader: Reader, budget: SessionBudget) returns (r: Result<seq<Variable>>)
    requires budget.Valid()
    modifies reader, budget
    ensures budget.Valid() && Kept(r, budget.retained - old(budget.retained))
    ensures Meters(EnvironmentGrammar(), EnvironmentWeight(), old(reader.View()), old(Room(budget)), r, reader.View(),
            old(Room(budget)) - Room(budget))
  {
    ghost var item, cost := VariableItem(), PairWeight();
    ghost var before, room := reader.View(), Room(budget);
    var start := budget.retained;
    var count := ReadCount(reader, MAXIMUM_ENVIRONMENT, VARIABLE_SIZE, budget);
    ListStart(item, MAXIMUM_ENVIRONMENT, VARIABLE_SIZE, cost, before, room, count, reader.View(), Room(budget));
    if count.Failure? {
      return Failure;
    }
    var values: seq<Variable> := [];
    var left: nat := count.value;
    ghost var now, room1 := reader.View(), Room(budget);
    while left > 0
      invariant budget.Valid() && start <= budget.retained && now == reader.View() && room1 == Room(budget)
      invariant ListStage(item, MAXIMUM_ENVIRONMENT, VARIABLE_SIZE, cost, before, room, left, values, now, room1)
    {
      var value := ReadVariable(reader, values, budget);
      ghost var after, room2 := reader.View(), Room(budget);
      ListItem(item, MAXIMUM_ENVIRONMENT, VARIABLE_SIZE, cost, before, room, left, values, now, room1, value, after, room2);
      if value.Failure? {
        budget.Release(budget.retained - start);
        return Failure;
      }
      values, left, now, room1 := Push(values, value), left - 1, after, room2;
    }
    ListDone(item, MAXIMUM_ENVIRONMENT, VARIABLE_SIZE, cost, before, room, left, values, now, room1);
    return Success(values);
  }

  // ----- the whole request -----

  type FromEnvironment = (seq<Variable>, u64)
  type FromArguments = (Strings, FromEnvironment)
  type FromBuilder = (seq<byte>, FromArguments)
  type FromPlatform = (seq<byte>, FromBuilder)
  type FromInputs = (Strings, FromPlatform)
  type FromOutputs = (seq<Output>, FromInputs)
  type FromDerivation = (seq<byte>, FromOutputs)

  function Assemble(p: FromDerivation): Build {
    Build(p.0, p.1.0, p.1.1.0, p.1.1.1.0, p.1.1.1.1.0, p.1.1.1.1.1.0, p.1.1.1.1.1.1.0)
  }

  function Mode(p: FromDerivation): u64 { p.1.1.1.1.1.1.1 }

  function Disassemble(b: Build): FromDerivation {
    (b.drv, (b.outputs, (b.inputs, (b.platform, (b.builder, (b.arguments, (b.environment, 0)))))))
  }

  ghost function FromEnvironmentGrammar(): Grammar<FromEnvironment> { Row(EnvironmentGrammar(), Number(IsZero)) }

  ghost function FromArgumentsGrammar(): Grammar<FromArguments> { Row(ArgumentsGrammar(), FromEnvironmentGrammar()) }

  ghost function FromBuilderGrammar(): Grammar<FromBuilder> { Row(Str(BUILDER_BYTES, Text), FromArgumentsGrammar()) }

  ghost function FromPlatformGrammar(): Grammar<FromPlatform> { Row(Str(PLATFORM_BYTES, Text), FromBuilderGrammar()) }

  ghost function FromInputsGrammar(): Grammar<FromInputs> { Row(InputsGrammar(), FromPlatformGrammar()) }

  ghost function FromOutputsGrammar(): Grammar<FromOutputs> { Row(OutputsGrammar(), FromInputsGrammar()) }

  ghost function FromDerivationGrammar(): Grammar<FromDerivation> { Row(Str(MAXIMUM_PATH, DrvOk), FromOutputsGrammar()) }

  ghost function FromEnvironmentWeight(): FromEnvironment -> nat { RowCost(EnvironmentWeight(), Free()) }

  ghost function FromArgumentsWeight(): FromArguments -> nat { RowCost(StringsWeight(), FromEnvironmentWeight()) }

  ghost function FromBuilderWeight(): FromBuilder -> nat { RowCost(StringWeight(), FromArgumentsWeight()) }

  ghost function FromPlatformWeight(): FromPlatform -> nat { RowCost(StringWeight(), FromBuilderWeight()) }

  ghost function FromInputsWeight(): FromInputs -> nat { RowCost(StringsWeight(), FromPlatformWeight()) }

  ghost function FromOutputsWeight(): FromOutputs -> nat { RowCost(OutputsWeight(), FromInputsWeight()) }

  ghost function FromDerivationWeight(): FromDerivation -> nat { RowCost(StringWeight(), FromOutputsWeight()) }

  /** The arguments, the environment and the mode, which must be zero. */
  method ReadFromArguments(reader: Reader, budget: SessionBudget) returns (r: Result<FromArguments>)
    requires budget.Valid()
    modifies reader, budget
    ensures budget.Valid()
    ensures MetersOpen(FromArgumentsGrammar(), FromArgumentsWeight(), old(reader.View()), old(Room(budget)), r,
            reader.View(), old(Room(budget)) - Room(budget))
  {
    RowWeighs(ArgumentsGrammar(), StringsWeight(), FromEnvironmentGrammar(), FromEnvironmentWeight(), reader.View().logical,
            Room(budget));
    var arguments := ReadStrings(reader, MAXIMUM_ARGUMENTS, ARGUMENT_BYTES, NoNul, false, budget);
    if arguments.Failure? { return Failure; }
    RowWeighs(EnvironmentGrammar(), EnvironmentWeight(), Number(IsZero), Free(), reader.View().logical, Room(budget));
    var environment := ReadEnvironment(reader, budget);
    if environment.Failure? { return Failure; }
    var mode := ReadNumber(reader, IsZero, Room(budget));
    if mode.Failure? { return Failure; }
    RowCosts(StringsWeight(), FromEnvironmentWeight(), arguments.value, (environment.value, mode.value));
    RowCosts(EnvironmentWeight(), Free(), environment.value, mode.value);
    return Success((arguments.value, (environment.value, mode.value)));
  }

  /** Platform, builder, and those. */
  method ReadFromPlatform(reader: Reader, budget: SessionBudget) returns (r: Result<FromPlatform>)
    requires budget.Valid()
    modifies reader, budget
    ensures budget.Valid()
    ensures MetersOpen(FromPlatformGrammar(), FromPlatformWeight(), old(reader.View()), old(Room(budget)), r,
            reader.View(), old(Room(budget)) - Room(budget))
  {
    RowWeighs(Str(PLATFORM_BYTES, Text), StringWeight(), FromBuilderGrammar(), FromBuilderWeight(), reader.View().logical,
            Room(budget));
    var platform := ReadChecked(reader, PLATFORM_BYTES, Text, budget);
    if platform.Failure? { return Failure; }
    RowWeighs(Str(BUILDER_BYTES, Text), StringWeight(), FromArgumentsGrammar(), FromArgumentsWeight(), reader.View().logical,
            Room(budget));
    var builder := ReadChecked(reader, BUILDER_BYTES, Text, budget);
    if builder.Failure? { return Failure; }
    var rest := ReadFromArguments(reader, budget);
    if rest.Failure? { return Failure; }
    RowCosts(StringWeight(), FromBuilderWeight(), platform.value, (builder.value, rest.value));
    RowCosts(StringWeight(), FromArgumentsWeight(), builder.value, rest.value);
    return Success((platform.value, (builder.value, rest.value)));
  }

  /** Outputs, inputs, and those. */
  method ReadFromOutputs(reader: Reader, budget: SessionBudget) returns (r: Result<FromOutputs>)
    requires budget.Valid()
    modifies reader, budget
    ensures budget.Valid()
    ensures MetersOpen(FromOutputsGrammar(), FromOutputsWeight(), old(reader.View()), old(Room(budget)), r,
            reader.View(), old(Room(budget)) - Room(budget))
  {
    RowWeighs(OutputsGrammar(), OutputsWeight(), FromInputsGrammar(), FromInputsWeight(), reader.View().logical, Room(budget));
    var outputs := ReadOutputs(reader, budget);
    if outputs.Failure? { return Failure; }
    RowWeighs(InputsGrammar(), StringsWeight(), FromPlatformGrammar(), FromPlatformWeight(), reader.View().logical, Room(budget));
    var inputs := ReadStrings(reader, MAXIMUM_INPUTS, MAXIMUM_PATH, ValidBuildPath, true, budget);
    if inputs.Failure? { return Failure; }
    var rest := ReadFromPlatform(reader, budget);
    if rest.Failure? { return Failure; }
    RowCosts(OutputsWeight(), FromInputsWeight(), outputs.value, (inputs.value, rest.value));
    RowCosts(StringsWeight(), FromPlatformWeight(), inputs.value, rest.value);
    return Success((outputs.value, (inputs.value, rest.value)));
  }

  /** The whole request, part by part. */
  method ReadParts(reader: Reader, budget: SessionBudget) returns (r: Result<FromDerivation>)
    requires budget.Valid()
    modifies reader, budget
    ensures budget.Valid()
    ensures MetersOpen(FromDerivationGrammar(), FromDerivationWeight(), old(reader.View()), old(Room(budget)), r,
            reader.View(), old(Room(budget)) - Room(budget))
  {
    RowWeighs(Str(MAXIMUM_PATH, DrvOk), StringWeight(), FromOutputsGrammar(), FromOutputsWeight(), reader.View().logical,
            Room(budget));
    var drv := ReadChecked(reader, MAXIMUM_PATH, DrvOk, budget);
    if drv.Failure? { return Failure; }
    var rest := ReadFromOutputs(reader, budget);
    if rest.Failure? { return Failure; }
    RowCosts(StringWeight(), FromOutputsWeight(), drv.value, rest.value);
    return Success((drv.value, rest.value));
  }

  /** `complete_build_derivation`: the parts, then, on an input that `reports` unread data,
      the end of the message. */
  method ReadBuild(reader: Reader, reports: bool, budget: SessionBudget) returns (r: Result<Build>)
    requires budget.Valid() && !reader.framed
    modifies reader, budget
    ensures budget.Valid()
    ensures var decoded := DecodeBuild(old(reader.input), budget.maximum - old(budget.retained));
            && (r.Success? <==> decoded.Parsed? && (reports ==> decoded.rest == []))
            && (r.Success? ==> r.value == decoded.value && reader.input == decoded.rest)
    ensures budget.retained == old(budget.retained) + if r.Success? then BuildCost(r.value) else 0
  {
    ghost var room := Room(budget);
    var start := budget.retained;
    var parts := ReadParts(reader, budget);
    PartsRead(old(reader.input), room, parts, reader.View(), room - Room(budget));
    if parts.Failure? || (reports && reader.input != []) {
      budget.Release(budget.retained - start);
      return Failure;
    }
    return Success(Assemble(parts.value));
  }

  // ----- what it means -----

  /** Reading part by part, checking and charging on the way, is parsing the whole message
      plainly, then checking it, then weighing it. */
  ghost function DecodeBuild(s: seq<byte>, room: int): Parsed<Build> {
    match BuildLayout()(s)
    case Failed => Failed
    case Parsed(parts, rest) =>
      if Mode(parts) == 0 && ServerAccepts(Assemble(parts)) && BuildCost(Assemble(parts)) <= room
      then Parsed(Assemble(parts), rest) else Failed
  }

  /** Every string's padded length and the room of every list. */
  function BuildCost(b: Build): nat {
    StringCost(b.drv)
    + (ListCost(OUTPUT_SIZE, OutputCost)(b.outputs)
       + (ListCost(VEC_SIZE, StringCost)(b.inputs)
          + (StringCost(b.platform)
             + (StringCost(b.builder)
                + (ListCost(VEC_SIZE, StringCost)(b.arguments)
                   + ListCost(VARIABLE_SIZE, VariableCost)(b.environment))))))
  }

  function OutputCost(o: Output): nat {
    Padded(|Name(o)|) + (Padded(|OutputPath(o)|) + (Padded(|Algorithm(o)|) + Padded(|Hash(o)|)))
  }

  function VariableCost(v: Variable): nat {
    Padded(|VariableKey(v)|) + Padded(|VariableValue(v)|)
  }

  predicate OutputValid(o: Output) {
    Text(Name(o)) && ValidBuildPath(OutputPath(o)) && ValidHash(Algorithm(o), Hash(o))
  }

  predicate VariableValid(v: Variable) {
    Text(VariableKey(v)) && EQUALS !in VariableKey(v) && NoNul(VariableValue(v))
  }

  /** The checks of the server. */
  ghost predicate ServerAccepts(b: Build) {
    && DrvOk(b.drv) && Text(b.platform) && Text(b.builder)
    && Each(OutputValid, b.outputs) && Distinct(Keys(Name, b.outputs)) && Distinct(Keys(OutputPath, b.outputs))
    && Each(ValidBuildPath, b.inputs) && Distinct(b.inputs)
    && Each(NoNul, b.arguments)
    && Each(VariableValid, b.environment) && Distinct(Keys(VariableKey, b.environment))
  }

  function PlainOutput(): Grammar<Output> {
    Both(StringParser(NAME_BYTES), Both(StringParser(MAXIMUM_PATH), Both(StringParser(ALGORITHM_BYTES), StringParser(HASH_BYTES))))
  }

  function PlainVariable(): Grammar<Variable> {
    Both(StringParser(KEY_BYTES), StringParser(VALUE_BYTES))
  }

  function PlainStrings(maximum: nat, limit: nat): Grammar<Strings> {
    ListParser(StringParser(limit), maximum)
  }

  /** The layout of the message, with its limits and nothing else. */
  ghost function BuildLayout(): Grammar<FromDerivation> {
    Sealed(PlainBuild())
  }

  function PlainBuild(): Grammar<FromDerivation> {
    Both(StringParser(MAXIMUM_PATH),
      Both(ListParser(PlainOutput(), MAXIMUM_OUTPUTS),
        Both(PlainStrings(MAXIMUM_INPUTS, MAXIMUM_PATH),
          Both(StringParser(PLATFORM_BYTES),
            Both(StringParser(BUILDER_BYTES),
              Both(PlainStrings(MAXIMUM_ARGUMENTS, ARGUMENT_BYTES),
                Both(ListParser(PlainVariable(), MAXIMUM_ENVIRONMENT),
                  ParseInt)))))))
  }

  // ----- part by part is the whole -----

  function OutputFits(): (Output, seq<Output>) -> bool {
    (o: Output, before: seq<Output>) => NameFits(before)(o.0) && PathFits(before)(o.1.0) && HashOk(o.1.1)
  }

  function VariableFits(): (Variable, seq<Variable>) -> bool {
    (v: Variable, before: seq<Variable>) => KeyFits(before)(v.0) && NoNul(v.1)
  }

  lemma HashChecks()
    ensures Checks(HashGrammar(), Both(StringParser(ALGORITHM_BYTES), StringParser(HASH_BYTES)), HashOk)
  {
    var p, q := StringParser(ALGORITHM_BYTES), StringParser(HASH_BYTES);
    ChecksAny(ALGORITHM_BYTES);
    ChecksAny(HASH_BYTES);
    ChecksRow(AnyString(ALGORITHM_BYTES), p, Anything(), AnyString(HASH_BYTES), q, Anything());
    Unsealed(Guarded(HashPair(), HashOk));
    forall s ensures HashGrammar()(s) == Guarded(Both(p, q), HashOk)(s) {
      assert HashPair()(s) == Guarded(Both(p, q), ValidBoth(Anything(), Anything()))(s);
    }
  }

  lemma OutputChecks(before: seq<Output>)
    ensures Checks(OutputItem()(before), PlainOutput(), Against(OutputFits(), before))
  {
    var n, p, h := StringParser(NAME_BYTES), StringParser(MAXIMUM_PATH), Both(StringParser(ALGORITHM_BYTES), StringParser(HASH_BYTES));
    HashChecks();
    ChecksSealed(p, PathFits(before));
    ChecksRow(Str(MAXIMUM_PATH, PathFits(before)), p, PathFits(before), HashGrammar(), h, HashOk);
    ChecksSealed(n, NameFits(before));
    ChecksRow(Str(NAME_BYTES, NameFits(before)), n, NameFits(before), OutputTail(before), Both(p, h),
            ValidBoth(PathFits(before), HashOk));
    Unsealed(OutputItemBody());
    ChecksSame(OutputItem()(before), PlainOutput(), ValidBoth(NameFits(before), ValidBoth(PathFits(before), HashOk)),
            Against(OutputFits(), before));
  }

  lemma VariableChecks(before: seq<Variable>)
    ensures Checks(VariableItem()(before), PlainVariable(), Against(VariableFits(), before))
  {
    ChecksSealed(StringParser(KEY_BYTES), KeyFits(before));
    ChecksSealed(StringParser(VALUE_BYTES), NoNul);
    ChecksRow(Str(KEY_BYTES, KeyFits(before)), StringParser(KEY_BYTES), KeyFits(before), Str(VALUE_BYTES, NoNul),
            StringParser(VALUE_BYTES), NoNul);
    Unsealed(VariableItemBody());
    ChecksSame(VariableItem()(before), PlainVariable(), ValidBoth(KeyFits(before), NoNul), Against(VariableFits(), before));
  }

  lemma ListsCheck()
    ensures Checks(OutputsGrammar(), ListParser(PlainOutput(), MAXIMUM_OUTPUTS), AcceptsAll(OutputFits()))
    ensures Checks(EnvironmentGrammar(), ListParser(PlainVariable(), MAXIMUM_ENVIRONMENT), AcceptsAll(VariableFits()))
  {
    forall before ensures Checks(OutputItem()(before), PlainOutput(), Against(OutputFits(), before)) {
      OutputChecks(before);
    }
    ChecksListOf(OutputItem(), PlainOutput(), OutputFits(), MAXIMUM_OUTPUTS);
    forall before ensures Checks(VariableItem()(before), PlainVariable(), Against(VariableFits(), before)) {
      VariableChecks(before);
    }
    ChecksListOf(VariableItem(), PlainVariable(), VariableFits(), MAXIMUM_ENVIRONMENT);
  }

  function PartsOk(): FromDerivation -> bool {
    ValidBoth(DrvOk,
      ValidBoth(AcceptsAll(OutputFits()),
        ValidBoth(AcceptsAll(FitsItem(ValidBuildPath, true)),
          ValidBoth(Text,
            ValidBoth(Text,
              ValidBoth(AcceptsAll(FitsItem(NoNul, false)),
                ValidBoth(AcceptsAll(VariableFits()), IsZero)))))))
  }

  lemma BuildChecks()
    ensures Checks(FromDerivationGrammar(), BuildLayout(), PartsOk())
  {
    Unsealed(PlainBuild());
    ListsCheck();
    var p7, x7 := Both(ListParser(PlainVariable(), MAXIMUM_ENVIRONMENT), ParseInt), ValidBoth(AcceptsAll(VariableFits()), IsZero);
    ChecksSealed(ParseInt, IsZero);
    ChecksRow(EnvironmentGrammar(), ListParser(PlainVariable(), MAXIMUM_ENVIRONMENT), AcceptsAll(VariableFits()),
            Number(IsZero), ParseInt, IsZero);
    var p6, x6 := Both(PlainStrings(MAXIMUM_ARGUMENTS, ARGUMENT_BYTES), p7), ValidBoth(AcceptsAll(FitsItem(NoNul, false)), x7);
    ChecksStrings(MAXIMUM_ARGUMENTS, ARGUMENT_BYTES, NoNul, false);
    ChecksRow(ArgumentsGrammar(), PlainStrings(MAXIMUM_ARGUMENTS, ARGUMENT_BYTES), AcceptsAll(FitsItem(NoNul, false)),
            FromEnvironmentGrammar(), p7, x7);
    var p5, x5 := Both(StringParser(BUILDER_BYTES), p6), ValidBoth(Text, x6);
    ChecksSealed(StringParser(BUILDER_BYTES), Text);
    ChecksRow(Str(BUILDER_BYTES, Text), StringParser(BUILDER_BYTES), Text, FromArgumentsGrammar(), p6, x6);
    var p4, x4 := Both(StringParser(PLATFORM_BYTES), p5), ValidBoth(Text, x5);
    ChecksSealed(StringParser(PLATFORM_BYTES), Text);
    ChecksRow(Str(PLATFORM_BYTES, Text), StringParser(PLATFORM_BYTES), Text, FromBuilderGrammar(), p5, x5);
    var p3, x3 := Both(PlainStrings(MAXIMUM_INPUTS, MAXIMUM_PATH), p4), ValidBoth(AcceptsAll(FitsItem(ValidBuildPath, true)), x4);
    ChecksStrings(MAXIMUM_INPUTS, MAXIMUM_PATH, ValidBuildPath, true);
    ChecksRow(InputsGrammar(), PlainStrings(MAXIMUM_INPUTS, MAXIMUM_PATH), AcceptsAll(FitsItem(ValidBuildPath, true)),
            FromPlatformGrammar(), p4, x4);
    var p2, x2 := Both(ListParser(PlainOutput(), MAXIMUM_OUTPUTS), p3), ValidBoth(AcceptsAll(OutputFits()), x3);
    ChecksRow(OutputsGrammar(), ListParser(PlainOutput(), MAXIMUM_OUTPUTS), AcceptsAll(OutputFits()), FromInputsGrammar(), p3, x3);
    ChecksSealed(StringParser(MAXIMUM_PATH), DrvOk);
    ChecksRow(Str(MAXIMUM_PATH, DrvOk), StringParser(MAXIMUM_PATH), DrvOk, FromOutputsGrammar(), p2, x2);
  }

  predicate AnyOutput(o: Output) { true }

  lemma OutputsAccepted(outputs: seq<Output>)
    ensures AcceptsAll(OutputFits())(outputs) <==>
            Each(OutputValid, outputs) && Distinct(Keys(Name, outputs)) && Distinct(Keys(OutputPath, outputs))
  {
    var x, y := Keyed(OutputValid, Name, true), Keyed(AnyOutput, OutputPath, true);
    forall o: Output, b: seq<Output> ensures OutputFits()(o, b) == (x(o, b) && y(o, b)) {
      assert OutputFits()(o, b) == (NameFits(b)(Name(o)) && PathFits(b)(OutputPath(o)) && HashOk(o.1.1));
      assert x(o, b) == (OutputValid(o) && Name(o) !in Keys(Name, b));
      assert AnyOutput(o) && PathFits(b)(OutputPath(o)) == (ValidBuildPath(OutputPath(o)) && OutputPath(o) !in Keys(OutputPath, b));
      assert y(o, b) == (OutputPath(o) !in Keys(OutputPath, b));
    }
    AcceptsBoth(x, y, OutputFits(), [], outputs);
    AcceptsKeyed(OutputValid, Name, true, [], outputs);
    AcceptsKeyed(AnyOutput, OutputPath, true, [], outputs);
    assert [] + outputs == outputs;
  }

  lemma VariablesAccepted(environment: seq<Variable>)
    ensures AcceptsAll(VariableFits())(environment) <==> Each(VariableValid, environment) && Distinct(Keys(VariableKey, environment))
  {
    forall v: Variable, b: seq<Variable> ensures VariableFits()(v, b) == Keyed(VariableValid, VariableKey, true)(v, b) {
      assert VariableFits()(v, b) == (KeyFits(b)(VariableKey(v)) && NoNul(VariableValue(v)));
      assert Keyed(VariableValid, VariableKey, true)(v, b) == (VariableValid(v) && VariableKey(v) !in Keys(VariableKey, b));
    }
    AcceptsAllKeyed(VariableFits(), VariableValid, VariableKey, true, environment);
  }

  /** The checks on the way are the server's checks of the request. */
  lemma PartsOkMeans(parts: FromDerivation)
    ensures PartsOk()(parts) <==> Mode(parts) == 0 && ServerAccepts(Assemble(parts))
  {
    var b := Assemble(parts);
    OutputsAccepted(b.outputs);
    AcceptsStrings(ValidBuildPath, true, b.inputs);
    AcceptsStrings(NoNul, false, b.arguments);
    VariablesAccepted(b.environment);
  }

  lemma ItemWeights()
    ensures forall o :: OutputWeight()(o) == OutputCost(o)
    ensures forall v :: PairWeight()(v) == VariableCost(v)
    ensures forall v :: StringWeight()(v) == StringCost(v)
  {
    Unsealed(StringCost);
    Unsealed(CostBoth(StringWeight(), StringWeight()));
    Unsealed(CostBoth(StringWeight(), PairWeight()));
    Unsealed(CostBoth(StringWeight(), TailWeight()));
  }

  lemma WeightMeans(parts: FromDerivation)
    ensures FromDerivationWeight()(parts) == BuildCost(Assemble(parts))
  {
    var b := Assemble(parts);
    ItemWeights();
    ListWeightIs(OUTPUT_SIZE, OutputWeight(), OutputCost, b.outputs);
    ListWeightIs(VEC_SIZE, StringWeight(), StringCost, b.inputs);
    ListWeightIs(VEC_SIZE, StringWeight(), StringCost, b.arguments);
    ListWeightIs(VARIABLE_SIZE, PairWeight(), VariableCost, b.environment);
    Unsealed(CostBoth(EnvironmentWeight(), Free<u64>()));
    Unsealed(CostBoth(StringsWeight(), FromEnvironmentWeight()));
    Unsealed(CostBoth(StringWeight(), FromArgumentsWeight()));
    Unsealed(CostBoth(StringWeight(), FromBuilderWeight()));
    Unsealed(CostBoth(StringsWeight(), FromPlatformWeight()));
    Unsealed(CostBoth(OutputsWeight(), FromInputsWeight()));
    Unsealed(CostBoth(StringWeight(), FromOutputsWeight()));
  }

  lemma GrammarChecks(s: seq<byte>)
    ensures FromDerivationGrammar()(s) == Guarded(BuildLayout(), PartsOk())(s)
  {
    BuildChecks();
  }

  /** What reading the parts has done, in terms of the whole. */
  lemma PartsRead(s: seq<byte>, room: int, parts: Result<FromDerivation>, after: View, grew: int)
    requires MetersOpen(FromDerivationGrammar(), FromDerivationWeight(), Flow(s, Some([])), room, parts, after, grew)
    ensures parts.Failure? ==> DecodeBuild(s, room) == Failed
    ensures parts.Success? ==> DecodeBuild(s, room) == Parsed(Assemble(parts.value), after.logical)
    ensures parts.Success? ==> grew == BuildCost(Assemble(parts.value))
  {
    GrammarChecks(s);
    if BuildLayout()(s).Parsed? {
      PartsOkMeans(BuildLayout()(s).value);
      WeightMeans(BuildLayout()(s).value);
    }
  }

  // ----- what the client writes -----

  function OutputEncoder(): Output -> seq<byte> {
    EncodeBoth(EncodeString, EncodeBoth(EncodeString, EncodeBoth(EncodeString, EncodeString)))
  }

  function VariableEncoder(): Variable -> seq<byte> {
    EncodeBoth(EncodeString, EncodeString)
  }

  function EncodeBuild(b: Build): seq<byte> {
    EncodeString(b.drv)
    + (EncodeList(OutputEncoder(), b.outputs)
       + (EncodeList(EncodeString, b.inputs)
          + (EncodeString(b.platform)
             + (EncodeString(b.builder)
                + (EncodeList(EncodeString, b.arguments)
                   + (EncodeList(VariableEncoder(), b.environment)
                      + EncodeInt(0)))))))
  }

  /** `build_derivation`: the fields one after the other. */
  method WriteBuild(out: seq<byte>, b: Build) returns (r: seq<byte>)
    ensures r == out + EncodeBuild(b)
  {
    ghost var e7 := EncodeList(VariableEncoder(), b.environment) + EncodeInt(0);
    ghost var e6 := EncodeList(EncodeString, b.arguments) + e7;
    ghost var e5 := EncodeString(b.builder) + e6;
    ghost var e4 := EncodeString(b.platform) + e5;
    ghost var e3 := EncodeList(EncodeString, b.inputs) + e4;
    ghost var e2 := EncodeList(OutputEncoder(), b.outputs) + e3;
    r := out + EncodeString(b.drv);
    Assoc(out, EncodeString(b.drv), e2);
    Assoc(r, EncodeList(OutputEncoder(), b.outputs), e3);
    r := WriteList(r, OutputEncoder(), b.outputs);
    Assoc(r, EncodeList(EncodeString, b.inputs), e4);
    r := WriteList(r, EncodeString, b.inputs);
    Assoc(r, EncodeString(b.platform), e5);
    r := r + EncodeString(b.platform);
    Assoc(r, EncodeString(b.builder), e6);
    r := r + EncodeString(b.builder);
    Assoc(r, EncodeList(EncodeString, b.arguments), e7);
    r := WriteList(r, EncodeString, b.arguments);
    Assoc(r, EncodeList(VariableEncoder(), b.environment), EncodeInt(0));
    r := WriteList(r, VariableEncoder(), b.environment);
    r := r + EncodeInt(0);
  }

  function PartsEncoder(): FromDerivation -> seq<byte> {
    EncodeBoth(EncodeString,
      EncodeBoth(ListEncoder(OutputEncoder()),
        EncodeBoth(ListEncoder(EncodeString),
          EncodeBoth(EncodeString,
            EncodeBoth(EncodeString,
              EncodeBoth(ListEncoder(EncodeString),
                EncodeBoth(ListEncoder(VariableEncoder()), EncodeInt)))))))
  }

  function OutputLimits(): Output -> bool {
    ValidBoth(AtMostBytes(NAME_BYTES), ValidBoth(AtMostBytes(MAXIMUM_PATH), ValidBoth(AtMostBytes(ALGORITHM_BYTES),
            AtMostBytes(HASH_BYTES))))
  }

  function VariableLimits(): Variable -> bool {
    ValidBoth(AtMostBytes(KEY_BYTES), AtMostBytes(VALUE_BYTES))
  }

  function PartsLimits(): FromDerivation -> bool {
    ValidBoth(AtMostBytes(MAXIMUM_PATH),
      ValidBoth(ValidList(OutputLimits(), MAXIMUM_OUTPUTS),
        ValidBoth(ValidList(AtMostBytes(MAXIMUM_PATH), MAXIMUM_INPUTS),
          ValidBoth(AtMostBytes(PLATFORM_BYTES),
            ValidBoth(AtMostBytes(BUILDER_BYTES),
              ValidBoth(ValidList(AtMostBytes(ARGUMENT_BYTES), MAXIMUM_ARGUMENTS),
                ValidBoth(ValidList(VariableLimits(), MAXIMUM_ENVIRONMENT), AnyInt)))))))
  }

  /** Counts and lengths the decoder reads at all. */
  predicate WithinLimits(b: Build) {
    PartsLimits()(Disassemble(b))
  }

  lemma OutputInverse()
    ensures Inverse(PlainOutput(), OutputEncoder(), OutputLimits())
  {
    StringInverse(NAME_BYTES);
    StringInverse(MAXIMUM_PATH);
    StringInverse(ALGORITHM_BYTES);
    StringInverse(HASH_BYTES);
    var n, p, a, h := StringParser(NAME_BYTES), StringParser(MAXIMUM_PATH), StringParser(ALGORITHM_BYTES), StringParser(HASH_BYTES);
    var e2, x2 := EncodeBoth(EncodeString, EncodeString), ValidBoth(AtMostBytes(ALGORITHM_BYTES), AtMostBytes(HASH_BYTES));
    BothInverse(a, EncodeString, AtMostBytes(ALGORITHM_BYTES), h, EncodeString, AtMostBytes(HASH_BYTES));
    var e1, x1 := EncodeBoth(EncodeString, e2), ValidBoth(AtMostBytes(MAXIMUM_PATH), x2);
    BothInverse(p, EncodeString, AtMostBytes(MAXIMUM_PATH), Both(a, h), e2, x2);
    BothInverse(n, EncodeString, AtMostBytes(NAME_BYTES), Both(p, Both(a, h)), e1, x1);
  }

  lemma VariableInverse()
    ensures Inverse(PlainVariable(), VariableEncoder(), VariableLimits())
  {
    StringInverse(KEY_BYTES);
    StringInverse(VALUE_BYTES);
    BothInverse(StringParser(KEY_BYTES), EncodeString, AtMostBytes(KEY_BYTES), StringParser(VALUE_BYTES), EncodeString,
            AtMostBytes(VALUE_BYTES));
  }

  lemma StringsInverse(maximum: nat, limit: nat)
    requires maximum <= MAX_U64 && limit <= MAX_U64
    ensures Inverse(PlainStrings(maximum, limit), ListEncoder(EncodeString), ValidList(AtMostBytes(limit), maximum))
  {
    StringInverse(limit);
    ListInverse(StringParser(limit), EncodeString, AtMostBytes(limit), maximum);
  }

  /** The message layout is an exact inverse of what the client writes. */
  lemma BuildInverse()
    ensures Inverse(BuildLayout(), PartsEncoder(), PartsLimits())
  {
    Unsealed(PlainBuild());
    IntInverse();
    VariableInverse();
    ListInverse(PlainVariable(), VariableEncoder(), VariableLimits(), MAXIMUM_ENVIRONMENT);
    var p7 := Both(ListParser(PlainVariable(), MAXIMUM_ENVIRONMENT), ParseInt);
    var e7 := EncodeBoth(ListEncoder(VariableEncoder()), EncodeInt);
    var x7 := ValidBoth(ValidList(VariableLimits(), MAXIMUM_ENVIRONMENT), AnyInt);
    BothInverse(ListParser(PlainVariable(), MAXIMUM_ENVIRONMENT), ListEncoder(VariableEncoder()),
            ValidList(VariableLimits(), MAXIMUM_ENVIRONMENT),
                ParseInt, EncodeInt, AnyInt);
    StringsInverse(MAXIMUM_ARGUMENTS, ARGUMENT_BYTES);
    var p6, e6 := Both(PlainStrings(MAXIMUM_ARGUMENTS, ARGUMENT_BYTES), p7), EncodeBoth(ListEncoder(EncodeString), e7);
    var x6 := ValidBoth(ValidList(AtMostBytes(ARGUMENT_BYTES), MAXIMUM_ARGUMENTS), x7);
    BothInverse(PlainStrings(MAXIMUM_ARGUMENTS, ARGUMENT_BYTES), ListEncoder(EncodeString),
            ValidList(AtMostBytes(ARGUMENT_BYTES), MAXIMUM_ARGUMENTS), p7, e7, x7);
    StringInverse(BUILDER_BYTES);
    var p5, e5, x5 := Both(StringParser(BUILDER_BYTES), p6), EncodeBoth(EncodeString, e6), ValidBoth(AtMostBytes(BUILDER_BYTES), x6);
    BothInverse(StringParser(BUILDER_BYTES), EncodeString, AtMostBytes(BUILDER_BYTES), p6, e6, x6);
    StringInverse(PLATFORM_BYTES);
    var p4, e4, x4 := Both(StringParser(PLATFORM_BYTES), p5), EncodeBoth(EncodeString, e5), ValidBoth(AtMostBytes(PLATFORM_BYTES), x5);
    BothInverse(StringParser(PLATFORM_BYTES), EncodeString, AtMostBytes(PLATFORM_BYTES), p5, e5, x5);
    StringsInverse(MAXIMUM_INPUTS, MAXIMUM_PATH);
    var p3, e3 := Both(PlainStrings(MAXIMUM_INPUTS, MAXIMUM_PATH), p4), EncodeBoth(ListEncoder(EncodeString), e4);
    var x3 := ValidBoth(ValidList(AtMostBytes(MAXIMUM_PATH), MAXIMUM_INPUTS), x4);
    BothInverse(PlainStrings(MAXIMUM_INPUTS, MAXIMUM_PATH), ListEncoder(EncodeString),
            ValidList(AtMostBytes(MAXIMUM_PATH), MAXIMUM_INPUTS), p4, e4, x4);
    OutputInverse();
    ListInverse(PlainOutput(), OutputEncoder(), OutputLimits(), MAXIMUM_OUTPUTS);
    var p2, e2 := Both(ListParser(PlainOutput(), MAXIMUM_OUTPUTS), p3), EncodeBoth(ListEncoder(OutputEncoder()), e3);
    var x2 := ValidBoth(ValidList(OutputLimits(), MAXIMUM_OUTPUTS), x3);
    BothInverse(ListParser(PlainOutput(), MAXIMUM_OUTPUTS), ListEncoder(OutputEncoder()), ValidList(OutputLimits(),
            MAXIMUM_OUTPUTS), p3, e3, x3);
    StringInverse(MAXIMUM_PATH);
    BothInverse(StringParser(MAXIMUM_PATH), EncodeString, AtMostBytes(MAXIMUM_PATH), p2, e2, x2);
  }

  lemma EncodeBuildIs(b: Build)
    ensures EncodeBuild(b) == PartsEncoder()(Disassemble(b))
  {
  }

  lemma WrittenIsLaidOut(b: Build, rest: seq<byte>)
    requires WithinLimits(b)
    ensures BuildLayout()(EncodeBuild(b) + rest) == Parsed(Disassemble(b), rest)
  {
    BuildInverse();
    EncodeBuildIs(b);
    InverseRead(BuildLayout(), PartsEncoder(), PartsLimits(), Disassemble(b), rest);
  }

  /** A written request is decoded to itself exactly when it meets the server's checks and
      fits into the budget, leaving what follows, and is refused otherwise. */
  lemma BuildRoundTrip(b: Build, rest: seq<byte>, room: int)
    requires WithinLimits(b)
    ensures DecodeBuild(EncodeBuild(b) + rest, room) ==
            if ServerAccepts(b) && BuildCost(b) <= room then Parsed(b, rest) else Failed
  {
    WrittenIsLaidOut(b, rest);
    assert Assemble(Disassemble(b)) == b;
  }

  lemma LayoutIsWritten(s: seq<byte>)
    requires BuildLayout()(s).Parsed?
    ensures PartsLimits()(BuildLayout()(s).value) && s == PartsEncoder()(BuildLayout()(s).value) + BuildLayout()(s).rest
  {
    BuildInverse();
    InverseWritten(BuildLayout(), PartsEncoder(), PartsLimits(), s);
  }

  /** What has the layout of a message in mode zero is a written request. */
  lemma LaidOutIsWritten(s: seq<byte>)
    requires BuildLayout()(s).Parsed? && Mode(BuildLayout()(s).value) == 0
    ensures var b := Assemble(BuildLayout()(s).value); WithinLimits(b) && s == EncodeBuild(b) + BuildLayout()(s).rest
  {
    var parts := BuildLayout()(s).value;
    LayoutIsWritten(s);
    assert Disassemble(Assemble(parts)) == parts;
    EncodeBuildIs(Assemble(parts));
  }

  /** Nothing else is accepted. */
  lemma BuildCanonical(s: seq<byte>, room: int)
    requires DecodeBuild(s, room).Parsed?
    ensures var b := DecodeBuild(s, room).value;
            && s == EncodeBuild(b) + DecodeBuild(s, room).rest
            && WithinLimits(b) && ServerAccepts(b) && BuildCost(b) <= room
  {
    LaidOutIsWritten(s);
  }

  // ----- what the client checks -----

  /** `validate_build_derivation_request`, for a trusted connection. */
  ghost predicate ClientValid(b: Build) {
    && 0 < |b.outputs| <= MAXIMUM_OUTPUTS && |b.inputs| <= MAXIMUM_INPUTS
    && |b.arguments| <= MAXIMUM_ARGUMENTS && |b.environment| <= MAXIMUM_ENVIRONMENT
    && ValidPath(b.drv) && EndsWith(b.drv, DRV)
    && 0 < |b.platform| <= PLATFORM_BYTES && 0 < |b.builder| <= BUILDER_BYTES
    && Each(ClientOutput, b.outputs) && Distinct(Keys(Name, b.outputs))
    && Each(ValidPath, b.inputs)
    && Each(ClientArgument, b.arguments)
    && Each(ClientVariable, b.environment) && Distinct(Keys(VariableKey, b.environment))
  }

  predicate ClientOutput(o: Output) {
    0 < |Name(o)| <= NAME_BYTES && ValidPath(OutputPath(o)) && ValidHash(Algorithm(o), Hash(o))
  }

  predicate ClientArgument(v: seq<byte>) {
    |v| <= ARGUMENT_BYTES
  }

  predicate ClientVariable(v: Variable) {
    0 < |VariableKey(v)| <= KEY_BYTES && |VariableValue(v)| <= VALUE_BYTES
  }

  /** What the server checks and the client does not: zero bytes, `=` in keys, and equal
      output paths or inputs. */
  ghost predicate Clean(b: Build) {
    && NoNul(b.platform) && NoNul(b.builder)
    && Each(CleanOutput, b.outputs) && Distinct(Keys(OutputPath, b.outputs))
    && Distinct(b.inputs) && Each(NoNul, b.arguments) && Each(CleanVariable, b.environment)
  }

  predicate CleanOutput(o: Output) { NoNul(Name(o)) }

  predicate CleanVariable(v: Variable) { NoNul(VariableKey(v)) && EQUALS !in VariableKey(v) && NoNul(VariableValue(v)) }

  lemma PathLength(path: seq<byte>)
    requires ValidPath(path)
    ensures AtMostBytes(MAXIMUM_PATH)(path)
  {
  }

  lemma OutputFitsLimits(o: Output)
    requires ClientOutput(o)
    ensures OutputLimits()(o)
  {
    PathLength(OutputPath(o));
    ValidHashSizes(Algorithm(o), Hash(o));
  }

  lemma OutputsFitLimits(outputs: seq<Output>)
    requires |outputs| <= MAXIMUM_OUTPUTS && Each(ClientOutput, outputs)
    ensures ValidList(OutputLimits(), MAXIMUM_OUTPUTS)(outputs)
  {
    forall i | 0 <= i < |outputs| ensures OutputLimits()(outputs[i]) {
      assert ClientOutput(outputs[i]);
      OutputFitsLimits(outputs[i]);
    }
  }

  lemma InputsFitLimits(inputs: Strings)
    requires |inputs| <= MAXIMUM_INPUTS && Each(ValidPath, inputs)
    ensures ValidList(AtMostBytes(MAXIMUM_PATH), MAXIMUM_INPUTS)(inputs)
  {
    forall i | 0 <= i < |inputs| ensures AtMostBytes(MAXIMUM_PATH)(inputs[i]) {
      assert ValidPath(inputs[i]);
      PathLength(inputs[i]);
    }
  }

  lemma ArgumentsFitLimits(arguments: Strings)
    requires |arguments| <= MAXIMUM_ARGUMENTS && Each(ClientArgument, arguments)
    ensures ValidList(AtMostBytes(ARGUMENT_BYTES), MAXIMUM_ARGUMENTS)(arguments)
  {
    forall i | 0 <= i < |arguments| ensures AtMostBytes(ARGUMENT_BYTES)(arguments[i]) {
      assert ClientArgument(arguments[i]);
    }
  }

  lemma EnvironmentFitsLimits(environment: seq<Variable>)
    requires |environment| <= MAXIMUM_ENVIRONMENT && Each(ClientVariable, environment)
    ensures ValidList(VariableLimits(), MAXIMUM_ENVIRONMENT)(environment)
  {
    forall i | 0 <= i < |environment| ensures VariableLimits()(environment[i]) {
      assert ClientVariable(environment[i]);
    }
  }

  lemma ClientValidFits(b: Build)
    requires ClientValid(b)
    ensures WithinLimits(b)
  {
    OutputsFitLimits(b.outputs);
    InputsFitLimits(b.inputs);
    ArgumentsFitLimits(b.arguments);
    EnvironmentFitsLimits(b.environment);
    PathLength(b.drv);
  }

  lemma ClientWrites(b: Build, rest: seq<byte>)
    requires ClientValid(b)
    ensures BuildLayout()(EncodeBuild(b) + rest) == Parsed(Disassemble(b), rest)
  {
    ClientValidFits(b);
    WrittenIsLaidOut(b, rest);
  }

  lemma ValidIsBuildPath(path: seq<byte>)
    ensures ValidBuildPath(path) <==> ValidPath(path)
  {
    if ValidPath(path) { ValidPathBytes(path); }
  }

  lemma ClientServerDifference(b: Build)
    requires ClientValid(b)
    ensures ServerAccepts(b) <==> Clean(b)
  {
    ValidIsBuildPath(b.drv);
    forall i | 0 <= i < |b.outputs| ensures OutputValid(b.outputs[i]) <==> CleanOutput(b.outputs[i]) {
      assert ClientOutput(b.outputs[i]);
      ValidIsBuildPath(b.outputs[i].1.0);
    }
    forall i | 0 <= i < |b.inputs| ensures ValidBuildPath(b.inputs[i]) {
      assert ValidPath(b.inputs[i]);
      ValidIsBuildPath(b.inputs[i]);
    }
    forall i | 0 <= i < |b.environment| ensures VariableValid(b.environment[i]) <==> CleanVariable(b.environment[i]) {
      assert ClientVariable(b.environment[i]);
    }
  }

  /** A request that passes the client's checks arrives as it was written exactly when it is
      also clean and fits into the server's budget. */
  lemma ClientBuildArrivesIff(b: Build, rest: seq<byte>, room: int)
    requires ClientValid(b)
    ensures DecodeBuild(EncodeBuild(b) + rest, room) ==
            if Clean(b) && BuildCost(b) <= room then Parsed(b, rest) else Failed
  {
    ClientWrites(b, rest);
    ClientServerDifference(b);
    assert Assemble(Disassemble(b)) == b;
  }

  /** The client writes requests the server refuses, whatever its budget. */
  lemma NulPlatformIsRefused(b: Build, rest: seq<byte>, room: int)
    requires ClientValid(b)
    ensures var c := b.(platform := [0]); ClientValid(c) && DecodeBuild(EncodeBuild(c) + rest, room) == Failed
  {
    var c := b.(platform := [0]);
    assert c.platform[0] == 0;
    ClientBuildArrivesIff(c, rest, room);
  }

  /** A request with one output "out" and nothing else. */
  function SmallBuild(drv: seq<byte>, path: seq<byte>, platform: seq<byte>): Build {
    Build(drv, [([111, 117, 116], (path, ([], [])))], [], platform, [SLASH], [], [])
  }

  lemma SmallBuildIsValid(drv: seq<byte>, path: seq<byte>, platform: seq<byte>)
    requires ValidPath(drv) && EndsWith(drv, DRV) && ValidPath(path) && 0 < |platform| <= PLATFORM_BYTES
    ensures var b := SmallBuild(drv, path, platform); ClientValid(b) && (Clean(b) <==> 0 !in platform)
  {
  }

  /** The request of "x" from "x.drv". */
  function SampleBuild(platform: seq<byte>): Build {
    SmallBuild(SamplePath([120] + DRV), SamplePath([120]), platform)
  }

  lemma SampleBuildIsValid(platform: seq<byte>)
    requires 0 < |platform| <= PLATFORM_BYTES
    ensures ClientValid(SampleBuild(platform)) && (Clean(SampleBuild(platform)) <==> 0 !in platform)
  {
    var drv := SamplePath([120] + DRV);
    SamplePathIsValid([120] + DRV);
    SamplePathIsValid([120]);
    EndsWithEnd(drv, [120] + DRV, DRV);
    SmallBuildIsValid(drv, SamplePath([120]), platform);
  }

  /** That request is refused for its platform alone: without a zero byte in it, it arrives. */
  lemma SmallBuildArrivesIff(platform: seq<byte>, rest: seq<byte>, room: int)
    requires 0 < |platform| <= PLATFORM_BYTES && BuildCost(SampleBuild(platform)) <= room
    ensures ClientValid(SampleBuild(platform))
    ensures DecodeBuild(EncodeBuild(SampleBuild(platform)) + rest, room) ==
            if 0 in platform then Failed else Parsed(SampleBuild(platform), rest)
  {
    SampleBuildIsValid(platform);
    ClientBuildArrivesIff(SampleBuild(platform), rest, room);
  }

  // ----- the request, spelled out -----

  /** The counts and lengths the decoder reads. */
  ghost predicate SpelledLimits(b: Build) {
    && |b.drv| <= 222 && |b.platform| <= 64 && |b.builder| <= 4096
    && |b.outputs| <= 16 && (forall i :: 0 <= i < |b.outputs| ==> OutputLengths(b.outputs[i]))
    && |b.inputs| <= 4096 && (forall i :: 0 <= i < |b.inputs| ==> |b.inputs[i]| <= 222)
    && |b.arguments| <= 1024 && (forall i :: 0 <= i < |b.arguments| ==> |b.arguments[i]| <= 65536)
    && |b.environment| <= 4096 && (forall i :: 0 <= i < |b.environment| ==> VariableLengths(b.environment[i]))
  }

  predicate OutputLengths(o: Output) {
    |o.0| <= 256 && |o.1.0| <= 222 && |o.1.1.0| <= 64 && |o.1.1.1| <= 256
  }

  predicate VariableLengths(v: Variable) {
    |v.0| <= 4096 && |v.1| <= 1048576
  }

  /** What the server takes: a derivation's path; platform and builder; outputs with different
      names and paths and well-formed hashes; different input paths; arguments; and variables
      with different keys without `=`.  No text is empty or holds a zero byte, but arguments
      and values may be empty. */
  ghost predicate SpelledRequest(b: Build) {
    && SpelledPath(b.drv) && b.drv[|b.drv| - 4..] == Ascii(".drv")
    && b.platform != [] && 0 !in b.platform && b.builder != [] && 0 !in b.builder
    && SpelledOutputList(b.outputs)
    && (forall i :: 0 <= i < |b.inputs| ==> SpelledPath(b.inputs[i]))
    && (forall i, j :: 0 <= i < j < |b.inputs| ==> b.inputs[i] != b.inputs[j])
    && (forall i :: 0 <= i < |b.arguments| ==> 0 !in b.arguments[i])
    && SpelledEnvironment(b.environment)
  }

  ghost predicate SpelledOutputList(outputs: seq<Output>) {
    && (forall i :: 0 <= i < |outputs| ==>
          && outputs[i].0 != [] && 0 !in outputs[i].0 && SpelledPath(outputs[i].1.0)
          && SpelledHash(outputs[i].1.1.0, outputs[i].1.1.1))
    && (forall i, j :: 0 <= i < j < |outputs| ==> outputs[i].0 != outputs[j].0 && outputs[i].1.0 != outputs[j].1.0)
  }

  ghost predicate SpelledEnvironment(environment: seq<Variable>) {
    && (forall i :: 0 <= i < |environment| ==>
          environment[i].0 != [] && 0 !in environment[i].0 && 61 !in environment[i].0 && 0 !in environment[i].1)
    && (forall i, j :: 0 <= i < j < |environment| ==> environment[i].0 != environment[j].0)
  }

  /** What the request keeps of the budget: the padded length of every string, 120 bytes for
      each output, 24 for each input and argument and 48 for each variable. */
  function SpelledCost(b: Build): nat {
    Eights(|b.drv|) + Eights(|b.platform|) + Eights(|b.builder|) + Sum(KeptSizes(b.inputs)) + Sum(KeptSizes(b.arguments))
    + Sum(KeptOf(OutputKeeps, b.outputs)) + Sum(KeptOf(VariableKeeps, b.environment))
  }

  function KeptOf<T>(kept: T -> nat, values: seq<T>): seq<nat> {
    seq(|values|, i requires 0 <= i < |values| => kept(values[i]))
  }

  function OutputKeeps(o: Output): nat {
    120 + Eights(|o.0|) + Eights(|o.1.0|) + Eights(|o.1.1.0|) + Eights(|o.1.1.1|)
  }

  function VariableKeeps(v: Variable): nat {
    48 + Eights(|v.0|) + Eights(|v.1|)
  }

  function OutputBytes(o: Output): seq<byte> {
    EncodeString(o.0) + (EncodeString(o.1.0) + (EncodeString(o.1.1.0) + EncodeString(o.1.1.1)))
  }

  function VariableBytes(v: Variable): seq<byte> {
    EncodeString(v.0) + EncodeString(v.1)
  }

  /** The message: the fields one after the other, and a zero. */
  function BuildBytes(b: Build): seq<byte> {
    EncodeString(b.drv) + (EncodeList(OutputBytes, b.outputs) + (EncodeList(EncodeString, b.inputs) + (EncodeString(b.platform)
    + (EncodeString(b.builder) + (EncodeList(EncodeString, b.arguments) + (EncodeList(VariableBytes, b.environment) + EncodeInt(0)))))))
  }

  lemma {:induction false} SameItems<T>(e: T -> seq<byte>, f: T -> seq<byte>, values: seq<T>)
    requires forall i :: 0 <= i < |values| ==> e(values[i]) == f(values[i])
    ensures EncodeItems(e, values) == EncodeItems(f, values)
    decreases |values|
  {
    if values != [] {
      SameItems(e, f, values[1..]);
    }
  }

  lemma BuildBytesAre(b: Build)
    ensures EncodeBuild(b) == BuildBytes(b)
  {
    SameItems(OutputEncoder(), OutputBytes, b.outputs);
    SameItems(VariableEncoder(), VariableBytes, b.environment);
  }

  lemma OutputsLimits(outputs: seq<Output>)
    ensures ValidList(OutputLimits(), MAXIMUM_OUTPUTS)(outputs) <==>
            |outputs| <= 16 && forall i :: 0 <= i < |outputs| ==> OutputLengths(outputs[i])
  {
    forall i | 0 <= i < |outputs| ensures OutputLimits()(outputs[i]) <==> OutputLengths(outputs[i]) {
    }
  }

  lemma EnvironmentLimits(environment: seq<Variable>)
    ensures ValidList(VariableLimits(), MAXIMUM_ENVIRONMENT)(environment) <==>
            |environment| <= 4096 && forall i :: 0 <= i < |environment| ==> VariableLengths(environment[i])
  {
    forall i | 0 <= i < |environment| ensures VariableLimits()(environment[i]) <==> VariableLengths(environment[i]) {
    }
  }

  lemma StringsLimits(values: Strings, maximum: nat, limit: nat)
    ensures ValidList(AtMostBytes(limit), maximum)(values) <==>
            |values| <= maximum && forall i :: 0 <= i < |values| ==> |values[i]| <= limit
  {
  }

  lemma LimitsMean(b: Build)
    ensures WithinLimits(b) <==> SpelledLimits(b)
  {
    OutputsLimits(b.outputs);
    EnvironmentLimits(b.environment);
    StringsLimits(b.inputs, MAXIMUM_INPUTS, MAXIMUM_PATH);
    StringsLimits(b.arguments, MAXIMUM_ARGUMENTS, ARGUMENT_BYTES);
  }

  lemma {:induction false} ListCostIs<T>(size: nat, cost: T -> nat, kept: T -> nat, values: seq<T>)
    requires forall i :: 0 <= i < |values| ==> kept(values[i]) == size + cost(values[i])
    ensures ListCost(size, cost)(values) == Sum(KeptOf(kept, values))
    decreases |values|
  {
    if values != [] {
      ListCostIs(size, cost, kept, values[1..]);
      assert KeptOf(kept, values)[1..] == KeptOf(kept, values[1..]);
    }
  }

  lemma OutputCostIs(o: Output)
    ensures OutputKeeps(o) == 120 + OutputCost(o)
  {
    PaddedIs(|o.0|);
    PaddedIs(|o.1.0|);
    PaddedIs(|o.1.1.0|);
    PaddedIs(|o.1.1.1|);
  }

  lemma VariableCostIs(v: Variable)
    ensures VariableKeeps(v) == 48 + VariableCost(v)
  {
    PaddedIs(|v.0|);
    PaddedIs(|v.1|);
  }

  lemma OutputsCostIs(outputs: seq<Output>)
    ensures ListCost(OUTPUT_SIZE, OutputCost)(outputs) == Sum(KeptOf(OutputKeeps, outputs))
  {
    forall i | 0 <= i < |outputs| ensures OutputKeeps(outputs[i]) == OUTPUT_SIZE + OutputCost(outputs[i]) {
      OutputCostIs(outputs[i]);
    }
    ListCostIs(OUTPUT_SIZE, OutputCost, OutputKeeps, outputs);
  }

  lemma EnvironmentCostIs(environment: seq<Variable>)
    ensures ListCost(VARIABLE_SIZE, VariableCost)(environment) == Sum(KeptOf(VariableKeeps, environment))
  {
    forall i | 0 <= i < |environment| ensures VariableKeeps(environment[i]) == VARIABLE_SIZE + VariableCost(environment[i]) {
      VariableCostIs(environment[i]);
    }
    ListCostIs(VARIABLE_SIZE, VariableCost, VariableKeeps, environment);
  }

  lemma TextCostIs(v: seq<byte>)
    ensures StringCost(v) == Eights(|v|)
  {
    PaddedIs(|v|);
  }

  lemma BuildCostIs(b: Build)
    ensures BuildCost(b) == SpelledCost(b)
  {
    TextCostIs(b.drv);
    TextCostIs(b.platform);
    TextCostIs(b.builder);
    StringsCostIs(b.inputs);
    StringsCostIs(b.arguments);
    OutputsCostIs(b.outputs);
    EnvironmentCostIs(b.environment);
  }

  lemma BuildPathIff(path: seq<byte>)
    ensures ValidBuildPath(path) <==> SpelledPath(path)
  {
    ValidIsBuildPath(path);
    ValidPathIff(path);
  }

  lemma OutputListIff(outputs: seq<Output>)
    ensures SpelledOutputList(outputs) <==>
            Each(OutputValid, outputs) && Distinct(Keys(Name, outputs)) && Distinct(Keys(OutputPath, outputs))
  {
    forall i | 0 <= i < |outputs|
      ensures OutputValid(outputs[i]) <==>
              && outputs[i].0 != [] && 0 !in outputs[i].0 && SpelledPath(outputs[i].1.0)
              && SpelledHash(outputs[i].1.1.0, outputs[i].1.1.1)
    {
      BuildPathIff(outputs[i].1.0);
      ValidHashIff(outputs[i].1.1.0, outputs[i].1.1.1);
    }
    DistinctKeysIff(Name, outputs);
    DistinctKeysIff(OutputPath, outputs);
  }

  lemma DistinctKeysIff<T, K>(key: T -> K, values: seq<T>)
    ensures Distinct(Keys(key, values)) <==> forall i, j :: 0 <= i < j < |values| ==> key(values[i]) != key(values[j])
  {
    if Distinct(Keys(key, values)) {
      forall i, j | 0 <= i < j < |values| ensures key(values[i]) != key(values[j]) {
        assert Keys(key, values)[i] != Keys(key, values)[j];
      }
    }
  }

  lemma EnvironmentIff(environment: seq<Variable>)
    ensures SpelledEnvironment(environment) <==> Each(VariableValid, environment) && Distinct(Keys(VariableKey, environment))
  {
    DistinctKeysIff(VariableKey, environment);
  }

  lemma ServerAcceptsIff(b: Build)
    ensures ServerAccepts(b) <==> SpelledRequest(b)
  {
    BuildPathIff(b.drv);
    DrvIs();
    OutputListIff(b.outputs);
    EnvironmentIff(b.environment);
    forall i | 0 <= i < |b.inputs| ensures ValidBuildPath(b.inputs[i]) <==> SpelledPath(b.inputs[i]) {
      BuildPathIff(b.inputs[i]);
    }
  }

  /** A request's bytes are decoded to it exactly when the server takes it and it fits, whatever
      follows, which is left; otherwise they are refused. */
  lemma BuildArrivesIff(b: Build, rest: seq<byte>, room: int)
    requires SpelledLimits(b)
    ensures DecodeBuild(BuildBytes(b) + rest, room) ==
            if SpelledRequest(b) && SpelledCost(b) <= room then Parsed(b, rest) else Failed
  {
    BuildDecoded(b, rest, room);
    BuildBytesAre(b);
    ServerAcceptsIff(b);
    BuildCostIs(b);
  }

  /** Whatever is on the stream, a request is decoded exactly when the bytes before the rest are
      its bytes, it keeps the limits, the server takes it and it fits. */
  lemma BuildReadIff(s: seq<byte>, room: int, b: Build, rest: seq<byte>)
    ensures DecodeBuild(s, room) == Parsed(b, rest) <==>
            s == BuildBytes(b) + rest && SpelledLimits(b) && SpelledRequest(b) && SpelledCost(b) <= room
  {
    if DecodeBuild(s, room) == Parsed(b, rest) {
      BuildIsSpelled(s, room);
    }
    if SpelledLimits(b) {
      BuildArrivesIff(b, rest, room);
    }
  }

  lemma BuildIsSpelled(s: seq<byte>, room: int)
    requires DecodeBuild(s, room).Parsed?
    ensures var b := DecodeBuild(s, room).value;
            && s == BuildBytes(b) + DecodeBuild(s, room).rest
            && SpelledLimits(b) && SpelledRequest(b) && SpelledCost(b) <= room
  {
    BuildCanonical(s, room);
    var b := DecodeBuild(s, room).value;
    BuildBytesAre(b);
    LimitsMean(b);
    ServerAcceptsIff(b);
    BuildCostIs(b);
  }

  lemma BuildDecoded(b: Build, rest: seq<byte>, room: int)
    requires SpelledLimits(b)
    ensures DecodeBuild(EncodeBuild(b) + rest, room) ==
            if ServerAccepts(b) && BuildCost(b) <= room then Parsed(b, rest) else Failed
  {
    LimitsMean(b);
    BuildRoundTrip(b, rest, room);
  }

  /** What the client checks before it writes. */
  ghost predicate SpelledByClient(b: Build) {
    && SpelledPath(b.drv) && b.drv[|b.drv| - 4..] == Ascii(".drv")
    && 0 < |b.platform| <= 64 && 0 < |b.builder| <= 4096
    && 0 < |b.outputs| <= 16 && |b.inputs| <= 4096 && |b.arguments| <= 1024 && |b.environment| <= 4096
    && (forall i :: 0 <= i < |b.outputs| ==>
          && 0 < |b.outputs[i].0| <= 256 && SpelledPath(b.outputs[i].1.0)
          && SpelledHash(b.outputs[i].1.1.0, b.outputs[i].1.1.1))
    && (forall i, j :: 0 <= i < j < |b.outputs| ==> b.outputs[i].0 != b.outputs[j].0)
    && (forall i :: 0 <= i < |b.inputs| ==> SpelledPath(b.inputs[i]))
    && (forall i :: 0 <= i < |b.arguments| ==> |b.arguments[i]| <= 65536)
    && (forall i :: 0 <= i < |b.environment| ==> 0 < |b.environment[i].0| <= 4096 && |b.environment[i].1| <= 1048576)
    && (forall i, j :: 0 <= i < j < |b.environment| ==> b.environment[i].0 != b.environment[j].0)
  }

  lemma ClientValidIff(b: Build)
    ensures ClientValid(b) <==> SpelledByClient(b)
  {
    ValidPathIff(b.drv);
    DrvIs();
    forall i | 0 <= i < |b.outputs|
      ensures ClientOutput(b.outputs[i]) <==>
              && 0 < |b.outputs[i].0| <= 256 && SpelledPath(b.outputs[i].1.0)
              && SpelledHash(b.outputs[i].1.1.0, b.outputs[i].1.1.1)
    {
      ValidPathIff(b.outputs[i].1.0);
      ValidHashIff(b.outputs[i].1.1.0, b.outputs[i].1.1.1);
    }
    forall i | 0 <= i < |b.inputs| ensures ValidPath(b.inputs[i]) <==> SpelledPath(b.inputs[i]) {
      ValidPathIff(b.inputs[i]);
    }
    DistinctKeysIff(Name, b.outputs);
    DistinctKeysIff(VariableKey, b.environment);
  }
}
