/** The assembly form of flat programs: printing, parsing, and what parsing ignores. */
module Assembly {
  import opened Wrappers
  import opened Whitespace
  import opened FlatProgram
  import Values

  // ----- numbers -----

  function Digit(d: nat): char
    requires d < 10
  {
    ('0' as int + d) as char
  }

  predicate IsDigit(c: char) {
    '0' <= c <= '9'
  }

  /** Decimal digits without leading zeros. */
  function Digits(n: nat): (r: string)
    ensures r != [] && forall i :: 0 <= i < |r| ==> IsDigit(r[i])
  {
    if n < 10 then [Digit(n)] else Digits(n / 10) + [Digit(n % 10)]
  }

  function ShowInt(n: int): string {
    if n < 0 then "-" + Digits(-n) else Digits(n)
  }

  /** The number a sequence of digits stands for. */
  function ReadDigits(s: string): Option<nat> {
    if s == [] || !IsDigit(s[|s| - 1]) then None
    else
      var last := s[|s| - 1] as int - '0' as int;
      if |s| == 1 then Some(last)
      else
        var front := ReadDigits(s[..|s| - 1]);
        if front.None? then None else Some(front.value * 10 + last)
  }

  /** `str::parse::<i32>`. */
  function ReadI32(s: string): Option<i32> {
    var signed := s != [] && (s[0] == '+' || s[0] == '-');
    var n := ReadDigits(if signed then s[1..] else s);
    if n.None? then None
    else
      var value: int := if signed && s[0] == '-' then -(n.value as int) else n.value;
      if -0x8000_0000 <= value < 0x8000_0000 then Some(value) else None
  }

  /** `str::parse::<usize>`. */
  function ReadUsize(s: string): Option<nat> {
    var n := ReadDigits(if s != [] && s[0] == '+' then s[1..] else s);
    if n.None? || n.value > Values.USIZE_MAX then None else n
  }

  lemma {:induction false} ReadWhatIsShown(n: nat)
    ensures ReadDigits(Digits(n)) == Some(n)
  {
    if n >= 10 {
      ReadWhatIsShown(n / 10);
      assert Digits(n)[..|Digits(n)| - 1] == Digits(n / 10);
    }
  }

  lemma ReadShownInt(n: i32)
    ensures ReadI32(ShowInt(n)) == Some(n)
  {
    hide ReadDigits, Digits;
    var m: int := n;
    var size := if m < 0 then -m else m;
    ReadWhatIsShown(size);
    var s := ShowInt(m);
    if m < 0 { assert s[1..] == Digits(size); }
  }

  lemma ReadShownIndex(n: nat)
    requires n <= Values.USIZE_MAX
    ensures ReadUsize(Digits(n)) == Some(n)
  {
    ReadWhatIsShown(n);
  }

  // ----- printing -----

  function Name(op: Instruction): string {
    match op
    case Push(_) => "PUSH"
    case Add => "ADD"
    case Sub => "SUB"
    case Mul => "MUL"
    case Div => "DIV"
    case Dup => "DUP"
    case Pop => "POP"
    case Swap => "SWAP"
    case Over => "OVER"
    case Eq => "EQ"
    case Lt => "LT"
    case Neg => "NEG"
    case Not => "NOT"
    case Jmp(_) => "JMP"
    case Jz(_) => "JZ"
    case Halt => "HALT"
  }

  function Show(op: Instruction): string {
    match op
    case Push(value) => Name(op) + " " + ShowInt(value)
    case Jmp(target) => Name(op) + " " + Digits(target)
    case Jz(target) => Name(op) + " " + Digits(target)
    case _ => Name(op)
  }

  function Print(code: Code): string {
    if code == [] then ""
    else if |code| == 1 then Show(code[0])
    else Print(code[..|code| - 1]) + "\n" + Show(code[|code| - 1])
  }

  /** `Display for Program`. */
  method WriteProgram(program: Program) returns (text: string)
    ensures text == Print(program.instructions)
  {
    text := "";
    var code := program.instructions;
    for i := 0 to |code|
      invariant text == Print(code[..i])
    {
      assert code[..i + 1][..i] == code[..i];
      if i > 0 { text := text + "\n"; }
      text := text + Show(code[i]);
    }
    assert code[..|code|] == code;
  }

  // ----- parsing -----

  datatype LineProblem =
    | OperandNotI32 | PushOperandCount | TakesNoOperand | TargetNotIndex | TargetCount | UnknownInstruction

  datatype Cause = Syntax(problem: LineProblem) | Rejected(reason: Problem)

  /** Why a source text is refused; `line` counts source lines from 1. */
  datatype AssemblyError = AssemblyError(line: Option<nat>, cause: Cause)

  function NewlineAt(s: string): (i: nat)
    ensures i <= |s| && (i < |s| ==> s[i] == '\n') && forall j :: 0 <= j < i ==> s[j] != '\n'
  {
    if s == [] || s[0] == '\n' then 0 else 1 + NewlineAt(s[1..])
  }

  function StripReturn(s: string): string {
    if s != [] && s[|s| - 1] == '\r' then s[..|s| - 1] else s
  }

  /** `str::lines`. */
  function Lines(s: string): seq<string>
    decreases |s|
  {
    if s == [] then []
    else
      var i := NewlineAt(s);
      if i == |s| then [s] else [StripReturn(s[..i])] + Lines(s[i + 1..])
  }

  function CommentAt(s: string): (i: nat)
    ensures i <= |s| && (i < |s| ==> s[i] == '#') && forall j :: 0 <= j < i ==> s[j] != '#'
  {
    if s == [] || s[0] == '#' then 0 else 1 + CommentAt(s[1..])
  }

  /** What is left of a line without its comment and the space around it. */
  function CodePart(line: string): string {
    Trim(line[..CommentAt(line)])
  }

  function WordEnd(s: string): (i: nat)
    ensures i <= |s| && (i < |s| ==> IsSpace(s[i])) && forall j :: 0 <= j < i ==> !IsSpace(s[j])
  {
    if s == [] || IsSpace(s[0]) then 0 else 1 + WordEnd(s[1..])
  }

  /** `str::split_whitespace`. */
  function Fields(s: string): seq<string>
    decreases |s|
  {
    TrimStartIsSuffix(s);
    var t := TrimStart(s);
    if t == [] then []
    else
      var i := WordEnd(t);
      FirstIsWord(s);
      [t[..i]] + Fields(t[i..])
  }

  lemma {:induction false} FirstIsWord(s: string)
    ensures TrimStart(s) != [] ==> !IsSpace(TrimStart(s)[0])
  {
    if s != [] && IsSpace(s[0]) { FirstIsWord(s[1..]); }
  }

  function Upper(s: string): string {
    seq(|s|, i requires 0 <= i < |s| => if 'a' <= s[i] <= 'z' then (s[i] as int - 32) as char else s[i])
  }

  /** The instructions that take no operand. */
  const PLAIN_INSTRUCTIONS: seq<Instruction> := [Add, Sub, Mul, Div, Dup, Pop, Swap, Over, Neg, Not, Eq, Lt, Halt]

  /** The first of `ops` with this name. */
  function Named(name: string, ops: seq<Instruction>): Option<Instruction> {
    if ops == [] then None
    else if Name(ops[0]) == name then Some(ops[0])
    else Named(name, ops[1..])
  }

  /** One instruction from the fields of its line. */
  function ParseFields(fields: seq<string>): Result<Instruction, LineProblem>
    requires fields != []
  {
    var opcode := Upper(fields[0]);
    if opcode == "PUSH" then
      if |fields| != 2 then Err(PushOperandCount)
      else
        var value := ReadI32(fields[1]);
        if value.None? then Err(OperandNotI32) else Ok(Push(value.value))
    else if opcode == "JMP" || opcode == "JZ" then
      if |fields| != 2 then Err(TargetCount)
      else
        var target := ReadUsize(fields[1]);
        if target.None? then Err(TargetNotIndex)
        else Ok(if opcode == "JMP" then Jmp(target.value) else Jz(target.value))
    else
      var plain := Named(opcode, PLAIN_INSTRUCTIONS);
      if plain.None? then Err(UnknownInstruction)
      else if |fields| != 1 then Err(TakesNoOperand)
      else Ok(plain.value)
  }

  /** The instruction of a line with code on it. */
  function ParseCode(text: string): Result<Instruction, LineProblem>
    requires text != [] && Trim(text) == text
  {
    HasFields(text);
    ParseFields(Fields(text))
  }

  lemma HasFields(text: string)
    requires text != [] && Trim(text) == text
    ensures Fields(text) != []
  {
    TrimBlank(text);
    TrimStartBlank(text);
  }

  lemma {:induction false} TrimEndIsPrefix(s: string)
    ensures |TrimEnd(s)| <= |s| && TrimEnd(s) == s[..|TrimEnd(s)|]
    ensures TrimEnd(s) != [] ==> !IsSpace(TrimEnd(s)[|TrimEnd(s)| - 1])
  {
    if s != [] && IsSpace(s[|s| - 1]) { TrimEndIsPrefix(s[..|s| - 1]); }
  }

  /** Trimming twice is trimming once. */
  lemma TrimTwice(s: string)
    ensures Trim(Trim(s)) == Trim(s)
  {
    FirstIsWord(s);
    TrimEndIsPrefix(TrimStart(s));
    var t := Trim(s);
    if t != [] {
      assert t[0] == TrimStart(s)[0];
    }
  }

  /** Instructions read so far, and the source line of each. */
  datatype Listing = Listing(code: Code, at: seq<nat>)

  function Assembled(lines: seq<string>): Result<Listing, AssemblyError>
    decreases |lines|
  {
    if lines == [] then Ok(Listing([], []))
    else
      var n := |lines|;
      var before := Assembled(lines[..n - 1]);
      if before.Err? then before
      else
        var text := CodePart(lines[n - 1]);
        if text == [] then before
        else
          TrimTwice(lines[n - 1][..CommentAt(lines[n - 1])]);
          var op := ParseCode(text);
          if op.Err? then Err(AssemblyError(Some(n), Syntax(op.error)))
          else Ok(Listing(before.value.code + [op.value], before.value.at + [n]))
  }

  lemma {:induction false} ErrorStays(lines: seq<string>, i: nat)
    requires i <= |lines| && Assembled(lines[..i]).Err?
    ensures Assembled(lines) == Assembled(lines[..i])
    decreases |lines| - i
  {
    if i == |lines| {
      assert lines[..i] == lines;
    } else {
      assert lines[..i + 1][..i] == lines[..i];
      ErrorStays(lines, i + 1);
    }
  }

  /** The source line a rejected instruction came from. */
  function SourceLine(at: seq<nat>, ordinal: Option<nat>): Option<nat> {
    if ordinal.Some? && 0 < ordinal.value <= |at| then Some(at[ordinal.value - 1]) else None
  }

  /** What the rejection says holds of the instructions, and it stands at the source line of the one it names. */
  ghost predicate RejectedFor(listing: Listing, e: ProgramError, error: AssemblyError) {
    && error == AssemblyError(SourceLine(listing.at, e.line), Rejected(e.problem))
    && Refused(listing.code, e)
  }

  /** The error stands at the line of instruction `k`, and `k` is at fault: the first one behind a `HALT` too early,
      the first jump out of the program, or one where paths disagree or bring too few operands. */
  ghost predicate AtFault(listing: Listing, e: ProgramError, error: AssemblyError, k: nat) {
    && k < |listing.code| == |listing.at| && error.line == Some(listing.at[k])
    && match e.problem
       case AfterHalt => k > 0 && listing.code[k - 1].Halt? && FirstProblem(listing.code, k - 1, e)
       case TargetOutside => !listing.code[k].Halt? && FirstProblem(listing.code, k, e)
       case JoinDepth => exists a: nat, b: nat :: a != b && Arrives(listing.code, k, a) && Arrives(listing.code, k, b)
       case MissingOperands => exists d: nat :: d < Required(listing.code[k]) && Arrives(listing.code, k, d)
       case _ => false
  }

  /** A rejection for an instruction stands at the source line of the one at fault; the other causes name no line. */
  lemma RejectionLine(listing: Listing, e: ProgramError, error: AssemblyError)
    requires |listing.at| == |listing.code| && RejectedFor(listing, e, error)
    ensures
      if e.problem.AfterHalt? || e.problem.TargetOutside? || e.problem.JoinDepth? || e.problem.MissingOperands?
      then exists k :: AtFault(listing, e, error, k)
      else error.line.None?
  {
    hide Arrives, Structured, PathsRun, PathsAgree, DepthWithin;
    var code := listing.code;
    if e.problem.AfterHalt? || e.problem.TargetOutside? {
      var i: nat :| FirstProblem(code, i, e);
      assert AtFault(listing, e, error, if e.problem.AfterHalt? then i + 1 else i);
    } else if e.problem.JoinDepth? || e.problem.MissingOperands? {
      assert AtFault(listing, e, error, e.line.value - 1);
    }
  }

  /** Every instruction carries the number of the line it was read from, and the numbers ascend. */
  lemma {:induction false} ListingNamesLines(lines: seq<string>, k: nat)
    requires Assembled(lines).Ok? && k < |Assembled(lines).value.code|
    ensures var listing := Assembled(lines).value;
      && |listing.at| == |listing.code| && 0 < listing.at[k] <= |lines|
      && (k > 0 ==> listing.at[k - 1] < listing.at[k])
    ensures var line := lines[Assembled(lines).value.at[k] - 1];
      && CodePart(line) != [] && Trim(CodePart(line)) == CodePart(line)
      && ParseCode(CodePart(line)) == Ok(Assembled(lines).value.code[k])
    decreases |lines|
  {
    hide CodePart, ParseCode, Trim;
    if lines != [] {
      var front, last := lines[..|lines| - 1], lines[|lines| - 1];
      var before := Assembled(front).value.code;
      if k < |before| { ListingNamesLines(front, k); }
      if 0 < k { if k - 1 < |before| { ListingNamesLines(front, k - 1); } }
      if before != [] { ListingNamesLines(front, |before| - 1); }
      ListingLength(front);
      CodeIsTrimmed(last);
    }
  }

  lemma {:induction false} ListingLength(lines: seq<string>)
    requires Assembled(lines).Ok?
    ensures |Assembled(lines).value.at| == |Assembled(lines).value.code|
    decreases |lines|
  {
    hide CodePart, ParseCode;
    if lines != [] { ListingLength(lines[..|lines| - 1]); }
  }

  /** `FromStr for Program`: reads exactly what was printed, and accepts exactly the valid programs. */
  method ReadProgram(source: string) returns (r: Result<Program, AssemblyError>)
    ensures match Assembled(Lines(source))
      case Err(e) => r == Err(e)
      case Ok(listing) =>
        && (r.Ok? <==> Valid(listing.code))
        && (r.Ok? ==> r.value.instructions == listing.code && Accepted(r.value))
        && (r.Err? ==> exists e :: RejectedFor(listing, e, r.error))
    ensures forall program :: Accepted(program) && source == Print(program.instructions) ==> r == Ok(program)
  {
    hide Valid, Accepted, PeakDepth, Print, CodePart, ParseCode, Trim, Lines, Refused;
    forall program | Accepted(program) && source == Print(program.instructions)
      ensures Assembled(Lines(source)).Ok? && Assembled(Lines(source)).value.code == program.instructions && Valid(program.instructions)
    {
      AcceptedValid(program);
      PrintThenParse(program.instructions);
    }
    var lines := Lines(source);
    var code: Code := [];
    var at: seq<nat> := [];
    for i := 0 to |lines|
      invariant Assembled(lines[..i]) == Ok(Listing(code, at))
    {
      assert lines[..i + 1][..i] == lines[..i];
      if Assembled(lines[..i + 1]).Err? { ErrorStays(lines, i + 1); }
      var text := CodePart(lines[i]);
      if text == [] { continue; }
      CodeIsTrimmed(lines[i]);
      var op := ParseCode(text);
      if op.Err? { return Err(AssemblyError(Some(i + 1), Syntax(op.error))); }
      code := code + [op.value];
      at := at + [i + 1];
    }
    assert lines[..|lines|] == lines;
    var made := New(code);
    if made.Err? {
      var error := AssemblyError(SourceLine(at, made.error.line), Rejected(made.error.problem));
      assert RejectedFor(Listing(code, at), made.error, error);
      return Err(error);
    }
    forall program | Accepted(program) && source == Print(program.instructions) ensures made.value == program {
      SameProgram(program, made.value);
    }
    r := Ok(made.value);
  }

  lemma CodeIsTrimmed(line: string)
    ensures Trim(CodePart(line)) == CodePart(line)
  {
    TrimTwice(line[..CommentAt(line)]);
  }

  lemma AcceptedValid(program: Program)
    requires Accepted(program)
    ensures Valid(program.instructions) && program.instructions != []
  {
  }

  lemma SameProgram(a: Program, b: Program)
    requires Accepted(a) && Accepted(b) && a.instructions == b.instructions
    ensures a == b
  {
    PeakUnique(a.instructions, a.maxStackDepth, b.maxStackDepth);
  }

  // ----- what was printed reads back -----

  predicate Letters(s: string) {
    forall i :: 0 <= i < |s| ==> 'A' <= s[i] <= 'Z'
  }

  lemma NameIsLetters(op: Instruction)
    ensures Letters(Name(op)) && 2 <= |Name(op)| <= 4
  {
  }

  lemma UpperName(op: Instruction)
    ensures Upper(Name(op)) == Name(op)
  {
    NameIsLetters(op);
  }

  /** Every instruction is found under its own name. */
  lemma NamedFinds(op: Instruction)
    ensures op.Push? || op.Jmp? || op.Jz? ||
      (Named(Name(op), PLAIN_INSTRUCTIONS) == Some(op) && Name(op) != "PUSH" && Name(op) != "JMP" && Name(op) != "JZ")
  {
    if !(op.Push? || op.Jmp? || op.Jz?) {
      hide Named, Name;
      PlainPosition(op);
      KeysAreUnique(op);
      var i :| 0 <= i < |PLAIN_INSTRUCTIONS| && PLAIN_INSTRUCTIONS[i] == op;
      NamedAt(PLAIN_INSTRUCTIONS, op, i);
      NamesDiffer(op, Push(0));
      NamesDiffer(op, Jmp(0));
      NamesDiffer(op, Jz(0));
      KnownName(Push(0));
      KnownName(Jmp(0));
      KnownName(Jz(0));
    }
  }

  lemma KeysAreUnique(op: Instruction)
    requires !(op.Push? || op.Jmp? || op.Jz?)
    ensures forall other: Instruction :: NameKey(other) == NameKey(op) ==> other == op
  {
  }

  lemma PlainPosition(op: Instruction)
    requires !(op.Push? || op.Jmp? || op.Jz?)
    ensures op in PLAIN_INSTRUCTIONS
  {
    var ops := PLAIN_INSTRUCTIONS;
    assert ops[0] == Add && ops[1] == Sub && ops[2] == Mul && ops[3] == Div && ops[4] == Dup && ops[5] == Pop && ops[6] == Swap;
    assert ops[7] == Over && ops[8] == Neg && ops[9] == Not && ops[10] == Eq && ops[11] == Lt && ops[12] == Halt;
  }

  /** Different kinds of instruction have different names. */
  lemma NamesDiffer(a: Instruction, b: Instruction)
    requires NameKey(a) != NameKey(b)
    ensures Name(a) != Name(b)
  {
    NameKeyRead(a);
    NameKeyRead(b);
  }

  /** The first, second and last letters, which tell all names apart. */
  function NameKey(op: Instruction): (char, char, char) {
    match op
    case Push(_) => ('P', 'U', 'H')
    case Add => ('A', 'D', 'D')
    case Sub => ('S', 'U', 'B')
    case Mul => ('M', 'U', 'L')
    case Div => ('D', 'I', 'V')
    case Dup => ('D', 'U', 'P')
    case Pop => ('P', 'O', 'P')
    case Swap => ('S', 'W', 'P')
    case Over => ('O', 'V', 'R')
    case Eq => ('E', 'Q', 'Q')
    case Lt => ('L', 'T', 'T')
    case Neg => ('N', 'E', 'G')
    case Not => ('N', 'O', 'T')
    case Jmp(_) => ('J', 'M', 'P')
    case Jz(_) => ('J', 'Z', 'Z')
    case Halt => ('H', 'A', 'T')
  }

  lemma NameKeyRead(op: Instruction)
    ensures var s := Name(op); |s| >= 2 && NameKey(op) == (s[0], s[1], s[|s| - 1])
  {
  }

  lemma {:induction false} NamedAt(ops: seq<Instruction>, op: Instruction, i: nat)
    requires i < |ops| && ops[i] == op
    requires forall j :: 0 <= j < |ops| && NameKey(ops[j]) == NameKey(op) ==> ops[j] == op
    ensures Named(Name(op), ops) == Some(op)
  {
    if ops[0] != op {
      NamesDiffer(ops[0], op);
      NamedAt(ops[1..], op, i - 1);
    }
  }

  /** Text without white space or comment marks at the ends or inside its words. */
  lemma CodeOfWords(name: string, arg: string)
    requires name != [] && forall i :: 0 <= i < |name| ==> !IsSpace(name[i]) && name[i] != '#'
    requires arg != [] && forall i :: 0 <= i < |arg| ==> !IsSpace(arg[i]) && arg[i] != '#'
    ensures CodePart(name + " " + arg) == name + " " + arg && Fields(name + " " + arg) == [name, arg]
  {
    hide Fields, CodePart, IsSpace;
    JoinedWords(name, arg);
    NoComment(name + " " + arg);
    FirstField(name, " " + arg);
    SpaceBefore(arg);
    CodeOfWord(arg);
  }

  lemma JoinedWords(name: string, arg: string)
    requires name != [] && forall i :: 0 <= i < |name| ==> !IsSpace(name[i]) && name[i] != '#'
    requires arg != [] && forall i :: 0 <= i < |arg| ==> !IsSpace(arg[i]) && arg[i] != '#'
    ensures var s := name + " " + arg;
      && s == name + (" " + arg) && IsSpace((" " + arg)[0])
      && !IsSpace(s[0]) && !IsSpace(s[|s| - 1]) && forall i :: 0 <= i < |s| ==> s[i] != '#'
  {
    assert IsSpace(' ');
    hide IsSpace;
    var s := name + " " + arg;
    assert s[0] == name[0] && s[|s| - 1] == arg[|arg| - 1];
    forall i | 0 <= i < |s| ensures s[i] != '#' {
      assert s[i] == if i < |name| then name[i] else if i == |name| then ' ' else arg[i - |name| - 1];
    }
  }

  /** A line that starts and ends in its words and has no comment mark is all code. */
  lemma NoComment(s: string)
    requires s != [] && !IsSpace(s[0]) && !IsSpace(s[|s| - 1]) && forall i :: 0 <= i < |s| ==> s[i] != '#'
    ensures CodePart(s) == s
  {
    assert CommentAt(s) == |s|;
    assert s[..|s|] == s;
  }

  lemma FirstField(name: string, rest: string)
    requires name != [] && forall i :: 0 <= i < |name| ==> !IsSpace(name[i])
    requires rest != [] ==> IsSpace(rest[0])
    ensures Fields(name + rest) == [name] + Fields(rest)
  {
    var s := name + rest;
    WordEndAt(s, |name|);
    assert s[..|name|] == name && s[|name|..] == rest;
  }

  lemma SpaceBefore(s: string)
    ensures Fields(" " + s) == Fields(s)
  {
    assert (" " + s)[1..] == s;
    assert TrimStart(" " + s) == TrimStart(s);
  }

  lemma CodeOfWord(name: string)
    requires name != [] && forall i :: 0 <= i < |name| ==> !IsSpace(name[i]) && name[i] != '#'
    ensures CodePart(name) == name && Fields(name) == [name]
  {
    assert CommentAt(name) == |name|;
    assert name[..|name|] == name;
    WordEndAt(name, |name|);
    assert name[|name|..] == [];
    assert Fields([]) == [];
  }

  lemma WordEndAt(s: string, i: nat)
    requires i <= |s| && (i < |s| ==> IsSpace(s[i])) && forall j :: 0 <= j < i ==> !IsSpace(s[j])
    ensures WordEnd(s) == i
  {
  }

  /** Jump targets that a machine word can hold. */
  predicate TargetsFit(code: Code) {
    forall i :: 0 <= i < |code| && (code[i].Jmp? || code[i].Jz?) ==> code[i].target <= Values.USIZE_MAX
  }

  lemma ShownParses(op: Instruction)
    requires op.Jmp? || op.Jz? ==> op.target <= Values.USIZE_MAX
    ensures var text := Show(op);
      && text != [] && CodePart(text) == text && Trim(text) == text && ParseCode(text) == Ok(op)
      && forall i :: 0 <= i < |text| ==> text[i] != '\n' && text[i] != '\r'
  {
    hide CodePart, Fields, Trim, ReadI32, ReadUsize, Digits, ShowInt, Name, ParseFields;
    NameIsLetters(op);
    CodeIsTrimmed(Show(op));
    match op {
      case Push(value) => ShownPush(op);
      case Jmp(target) => ShownJump(op, target);
      case Jz(target) => ShownJump(op, target);
      case _ =>
        CodeOfWord(Name(op));
        ShownPlain(op);
    }
  }

  lemma ShownPush(op: Instruction)
    requires op.Push?
    ensures CodePart(Show(op)) == Show(op) && Fields(Show(op)) != [] && ParseFields(Fields(Show(op))) == Ok(op)
    ensures forall i :: 0 <= i < |Show(op)| ==> Show(op)[i] != '\n' && Show(op)[i] != '\r'
  {
    hide CodePart, Fields, ReadI32, Digits, Upper, Name;
    NameIsLetters(op);
    UpperName(op);
    KnownName(op);
    ReadShownInt(op.value);
    CodeOfWords(Name(op), ShowInt(op.value));
  }

  lemma ShownJump(op: Instruction, target: nat)
    requires (op == Jmp(target) || op == Jz(target)) && target <= Values.USIZE_MAX
    ensures CodePart(Show(op)) == Show(op) && Fields(Show(op)) != [] && ParseFields(Fields(Show(op))) == Ok(op)
    ensures forall i :: 0 <= i < |Show(op)| ==> Show(op)[i] != '\n' && Show(op)[i] != '\r'
  {
    hide CodePart, Fields, ReadUsize, Digits, Upper, Name;
    NameIsLetters(op);
    UpperName(op);
    KnownName(op);
    NamesDiffer(op, Push(0));
    if op.Jz? { NamesDiffer(op, Jmp(0)); }
    KnownName(Jmp(0));
    KnownName(Push(0));
    ReadShownIndex(target);
    CodeOfWords(Name(op), Digits(target));
  }

  lemma ShownPlain(op: Instruction)
    requires !(op.Push? || op.Jmp? || op.Jz?)
    ensures ParseFields([Name(op)]) == Ok(op)
  {
    hide Upper, Name, Named;
    UpperName(op);
    NamedFinds(op);
  }

  lemma KnownName(op: Instruction)
    ensures op.Push? ==> Name(op) == "PUSH"
    ensures op.Jmp? ==> Name(op) == "JMP"
    ensures op.Jz? ==> Name(op) == "JZ"
  {
  }

  // ----- what a line means -----

  /** The word is the name, in either case of its letters. */
  ghost predicate SpelledAs(word: string, name: string) {
    |word| == |name| && forall i :: 0 <= i < |name| ==> word[i] == name[i] || word[i] as int == name[i] as int + 32
  }

  /** The fields of a line stand for the instruction: its name, and its operand if it takes one. */
  ghost predicate Denotes(fields: seq<string>, op: Instruction)
    requires fields != []
  {
    && SpelledAs(fields[0], Name(op))
    && match op
       case Push(value) => |fields| == 2 && ReadI32(fields[1]) == Some(value)
       case Jmp(target) => |fields| == 2 && ReadUsize(fields[1]) == Some(target)
       case Jz(target) => |fields| == 2 && ReadUsize(fields[1]) == Some(target)
       case _ => |fields| == 1
  }

  /** What is wrong with a line that stands for no instruction. */
  ghost predicate Blames(fields: seq<string>, problem: LineProblem)
    requires fields != []
  {
    match problem
    case PushOperandCount => SpelledAs(fields[0], "PUSH") && |fields| != 2
    case OperandNotI32 => SpelledAs(fields[0], "PUSH") && |fields| == 2 && ReadI32(fields[1]).None?
    case TargetCount => (SpelledAs(fields[0], "JMP") || SpelledAs(fields[0], "JZ")) && |fields| != 2
    case TargetNotIndex =>
      (SpelledAs(fields[0], "JMP") || SpelledAs(fields[0], "JZ")) && |fields| == 2 && ReadUsize(fields[1]).None?
    case TakesNoOperand =>
      |fields| != 1 && exists op: Instruction :: SpelledAs(fields[0], Name(op)) && !op.Push? && !op.Jmp? && !op.Jz?
    case UnknownInstruction => forall op: Instruction :: !SpelledAs(fields[0], Name(op))
  }

  lemma UpperSpells(word: string, name: string)
    requires Letters(name)
    ensures Upper(word) == name <==> SpelledAs(word, name)
  {
  }

  lemma {:induction false} NamedIs(name: string, ops: seq<Instruction>)
    ensures var r := Named(name, ops);
      r.Some? ==> Name(r.value) == name && r.value in ops
  {
    hide Name;
    if ops != [] { NamedIs(name, ops[1..]); }
  }

  lemma PlainIsPlain(op: Instruction)
    requires op in PLAIN_INSTRUCTIONS
    ensures !op.Push? && !op.Jmp? && !op.Jz?
  {
  }

  /** A line parses exactly to the instruction it stands for; one that stands for none is refused for what is wrong. */
  lemma ParseExact(fields: seq<string>)
    requires fields != []
    ensures forall op :: ParseFields(fields) == Ok(op) <==> Denotes(fields, op)
    ensures ParseFields(fields).Err? ==> Blames(fields, ParseFields(fields).error)
  {
    hide Upper, Name, Named, ReadI32, ReadUsize, SpelledAs, Letters;
    var word := fields[0];
    forall op: Instruction ensures Upper(word) == Name(op) <==> SpelledAs(word, Name(op)) {
      NameIsLetters(op);
      UpperSpells(word, Name(op));
    }
    KnownName(Push(0));
    KnownName(Jmp(0));
    KnownName(Jz(0));
    var plain := Named(Upper(word), PLAIN_INSTRUCTIONS);
    NamedIs(Upper(word), PLAIN_INSTRUCTIONS);
    if plain.Some? { PlainIsPlain(plain.value); }
    forall op: Instruction | Upper(word) == Name(op) && !op.Push? && !op.Jmp? && !op.Jz? ensures plain == Some(op) {
      NamedFinds(op);
    }
    forall op: Instruction ensures ParseFields(fields) == Ok(op) <==> Denotes(fields, op) {
      NamedFinds(op);
      KnownName(op);
    }
    if plain.None? {
      forall op: Instruction ensures !(Upper(word) == Name(op) && !op.Push? && !op.Jmp? && !op.Jz?) {}
    }
    forall op: Instruction ensures op.Push? || op.Jmp? || op.Jz? ==> Name(op) == "PUSH" || Name(op) == "JMP" || Name(op) == "JZ" {
      KnownName(op);
    }
  }

  /** Which texts are numbers, and that zeros in front do not matter; with the round trip of printed numbers this says
      what every text of digits stands for. */
  lemma {:induction false} DigitLaws(s: string)
    ensures ReadDigits(s).None? <==> s == [] || exists i :: 0 <= i < |s| && !IsDigit(s[i])
    ensures s != [] ==> ReadDigits("0" + s) == ReadDigits(s)
  {
    if s != [] {
      var n := |s| - 1;
      DigitLaws(s[..n]);
      assert ("0" + s)[..|s|] == "0" + s[..n];
      if n == 0 { assert ReadDigits("0") == Some(0); }
    }
  }

  /** Signs and ranges of operands: a text of digits is its number if that fits, with an optional plus, or for 32-bit
      integers a minus; nothing else is a number. */
  lemma NumberLaws(s: string)
    ensures var n := ReadDigits(s);
      && ReadI32("+" + s) == (if n.Some? && n.value < 0x8000_0000 then Some(n.value) else None)
      && ReadI32("-" + s) == (if n.Some? && n.value <= 0x8000_0000 then Some(-(n.value as int)) else None)
      && ReadUsize("+" + s) == (if n.Some? && n.value <= 0xFFFF_FFFF_FFFF_FFFF then n else None)
    ensures !Signed(s) ==> ReadI32(s) == ReadI32("+" + s) && ReadUsize(s) == ReadUsize("+" + s)
  {
    hide ReadI32, ReadUsize, ReadDigits;
    PlusReads(s);
    MinusReads(s);
    if !Signed(s) { PlusChangesNothing(s); }
  }

  lemma PlusReads(s: string)
    ensures var n := ReadDigits(s);
      && ReadI32("+" + s) == (if n.Some? && n.value < 0x8000_0000 then Some(n.value) else None)
      && ReadUsize("+" + s) == (if n.Some? && n.value <= 0xFFFF_FFFF_FFFF_FFFF then n else None)
  {
    hide ReadDigits;
    var t := "+" + s;
    assert t[0] == '+' && t[1..] == s;
  }

  lemma MinusReads(s: string)
    ensures var n := ReadDigits(s);
      ReadI32("-" + s) == if n.Some? && n.value <= 0x8000_0000 then Some(-(n.value as int)) else None
  {
    hide ReadDigits;
    var t := "-" + s;
    assert t[0] == '-' && t[1..] == s;
  }

  lemma PlusChangesNothing(s: string)
    requires !Signed(s)
    ensures ReadI32(s) == ReadI32("+" + s) && ReadUsize(s) == ReadUsize("+" + s)
  {
    hide ReadDigits;
    var t := "+" + s;
    assert t[0] == '+' && t[1..] == s;
  }

  /** Only negative integers are shown with a minus. */
  lemma ShownSign(n: i32)
    ensures ShowInt(n)[0] == '-' <==> n < 0
  {
    hide Digits;
  }

  predicate Signed(s: string) {
    s != [] && (s[0] == '+' || s[0] == '-')
  }

  function Shown(code: Code): seq<string> {
    seq(|code|, i requires 0 <= i < |code| => Show(code[i]))
  }

  lemma {:induction false} LinesAppend(s: string, line: string)
    requires s != [] && s[|s| - 1] != '\n' && s[|s| - 1] != '\r' && line != [] && '\n' !in line
    ensures Lines(s + "\n" + line) == Lines(s) + [line]
    decreases |s|
  {
    hide Lines, NewlineAt;
    var i := NewlineAt(s);
    if i == |s| {
      LinesSplit(s, line);
      OneLine(line);
      OneLine(s);
    } else {
      var front, rest := s[..i], s[i + 1..];
      assert s == front + "\n" + rest;
      assert s + "\n" + line == front + "\n" + (rest + "\n" + line);
      assert rest != [] && rest[|rest| - 1] == s[|s| - 1];
      LinesSplit(front, rest);
      LinesSplit(front, rest + "\n" + line);
      LinesAppend(rest, line);
    }
  }

  lemma LinesSplit(front: string, rest: string)
    requires '\n' !in front
    ensures Lines(front + "\n" + rest) == [StripReturn(front)] + Lines(rest)
  {
    var s := front + "\n" + rest;
    NewlineIs(s, |front|);
    assert s[..|front|] == front && s[|front| + 1..] == rest;
  }

  lemma NewlineIs(s: string, i: nat)
    requires i <= |s| && (i < |s| ==> s[i] == '\n') && forall j :: 0 <= j < i ==> s[j] != '\n'
    ensures NewlineAt(s) == i
  {
  }

  lemma {:induction false} PrintedLines(code: Code)
    requires code != [] && TargetsFit(code)
    ensures Lines(Print(code)) == Shown(code)
    ensures var s := Print(code); s != [] && s[|s| - 1] != '\n' && s[|s| - 1] != '\r'
    decreases |code|
  {
    hide Show, ParseCode, CodePart, Trim, Lines, Shown;
    var n := |code| - 1;
    ShownParses(code[n]);
    var last := Show(code[n]);
    ShownLast(code);
    if n == 0 {
      OneLine(last);
    } else {
      PrintedLines(code[..n]);
      LinesAppend(Print(code[..n]), last);
    }
  }

  lemma ShownLast(code: Code)
    requires code != []
    ensures Shown(code) == Shown(code[..|code| - 1]) + [Show(code[|code| - 1])]
    ensures |code| == 1 ==> Shown(code) == [Show(code[0])]
  {
  }

  lemma OneLine(s: string)
    requires s != [] && '\n' !in s
    ensures Lines(s) == [s]
  {
    NewlineIs(s, |s|);
  }

  lemma {:induction false} ShownAssembles(code: Code)
    requires TargetsFit(code)
    ensures Assembled(Shown(code)).Ok? && Assembled(Shown(code)).value.code == code
    decreases |code|
  {
    hide Show, ParseCode, CodePart, Trim;
    if code != [] {
      var n := |code| - 1;
      ShownAssembles(code[..n]);
      ShownParses(code[n]);
      assert Shown(code)[..n] == Shown(code[..n]);
      assert code == code[..n] + [code[n]];
    }
  }

  /** Parsing the printed form of a valid program gives its instructions. */
  lemma PrintThenParse(code: Code)
    requires Valid(code)
    ensures Assembled(Lines(Print(code))).Ok? && Assembled(Lines(Print(code))).value.code == code
  {
    PrintedLines(code);
    ShownAssembles(code);
  }

  // ----- what parsing ignores -----

  /** The code on the lines, in order, without blank lines and comments. */
  function CodeLines(lines: seq<string>): seq<string>
    decreases |lines|
  {
    if lines == [] then []
    else
      var text := CodePart(lines[|lines| - 1]);
      CodeLines(lines[..|lines| - 1]) + if text == [] then [] else [text]
  }

  /** The instructions depend only on the code on the lines. */
  lemma {:induction false} OnlyCodeMatters(a: seq<string>, b: seq<string>)
    requires CodeLines(a) == CodeLines(b)
    ensures Assembled(a).Ok? <==> Assembled(b).Ok?
    ensures Assembled(a).Ok? ==> Assembled(a).value.code == Assembled(b).value.code
    ensures Assembled(a).Err? ==> Assembled(a).error.cause == Assembled(b).error.cause
    decreases |a| + |b|
  {
    hide ParseCode, CodePart;
    if a != [] && CodePart(a[|a| - 1]) == [] {
      OnlyCodeMatters(a[..|a| - 1], b);
    } else if b != [] && CodePart(b[|b| - 1]) == [] {
      OnlyCodeMatters(a, b[..|b| - 1]);
    } else if a != [] && b != [] {
      var x, y := CodeLines(a), CodeLines(b);
      assert CodeLines(a[..|a| - 1]) == x[..|x| - 1] && CodeLines(b[..|b| - 1]) == y[..|y| - 1];
      assert x[|x| - 1] == y[|y| - 1];
      OnlyCodeMatters(a[..|a| - 1], b[..|b| - 1]);
    }
  }

  lemma {:induction false} CodeLinesConcat(a: seq<string>, b: seq<string>)
    ensures CodeLines(a + b) == CodeLines(a) + CodeLines(b)
    decreases |b|
  {
    if b == [] {
      assert a + b == a;
    } else {
      CodeLinesConcat(a, b[..|b| - 1]);
      assert (a + b)[..|a + b| - 1] == a + b[..|b| - 1];
    }
  }

  /** A line of white space, or of white space and a comment. */
  predicate Ignorable(line: string) {
    AllSpace(line[..CommentAt(line)])
  }

  /** `line` is `plain` with white space around it and perhaps a comment behind it. */
  ghost predicate Dressed(plain: string, line: string) {
    '#' !in plain &&
    exists before, after, comment :: AllSpace(before) && AllSpace(after) && (comment == "" || comment[0] == '#') &&
      line == before + plain + after + comment
  }

  lemma {:induction false} TrimStartSkips(before: string, s: string)
    requires AllSpace(before)
    ensures TrimStart(before + s) == TrimStart(s)
    decreases |before|
  {
    if before == [] {
      assert before + s == s;
    } else {
      assert (before + s)[1..] == before[1..] + s;
      TrimStartSkips(before[1..], s);
    }
  }

  lemma {:induction false} TrimEndSkips(s: string, after: string)
    requires AllSpace(after)
    ensures TrimEnd(s + after) == TrimEnd(s)
    decreases |after|
  {
    if after == [] {
      assert s + after == s;
    } else {
      assert (s + after)[..|s + after| - 1] == s + after[..|after| - 1];
      TrimEndSkips(s, after[..|after| - 1]);
    }
  }

  lemma TrimSkips(before: string, s: string, after: string)
    requires AllSpace(before) && AllSpace(after)
    ensures Trim(before + s + after) == Trim(s)
  {
    assert before + s + after == before + (s + after);
    TrimStartSkips(before, s + after);
    TrimStartIsSuffix(s);
    var n := |s| - |TrimStart(s)|;
    assert s == s[..n] + TrimStart(s);
    assert s + after == s[..n] + (TrimStart(s) + after);
    TrimStartSkips(s[..n], TrimStart(s) + after);
    TrimEndSkips(TrimStart(s), after);
    FirstIsWord(s);
    if TrimStart(s) != [] {
      assert TrimStart(TrimStart(s) + after) == TrimStart(s) + after;
    } else {
      TrimStartBlank(after);
      assert [] + after == after;
      TrimEndBlank([]);
    }
  }

  lemma CommentIs(s: string, i: nat)
    requires i <= |s| && (i < |s| ==> s[i] == '#') && forall j :: 0 <= j < i ==> s[j] != '#'
    ensures CommentAt(s) == i
  {
  }

  lemma SpaceIsNoComment(s: string)
    requires AllSpace(s)
    ensures '#' !in s
  {
  }

  lemma DressedCode(plain: string, line: string)
    requires Dressed(plain, line)
    ensures CodePart(line) == CodePart(plain)
  {
    var before, after, comment :| AllSpace(before) && AllSpace(after) && (comment == "" || comment[0] == '#') &&
      line == before + plain + after + comment;
    SpaceIsNoComment(before);
    SpaceIsNoComment(after);
    var code := before + plain + after;
    CommentIs(line, |code|);
    assert line[..|code|] == code;
    CommentIs(plain, |plain|);
    assert plain[..|plain|] == plain;
    TrimSkips(before, plain, after);
  }

  lemma IgnorableCode(line: string)
    requires Ignorable(line)
    ensures CodePart(line) == []
  {
    TrimBlank(line[..CommentAt(line)]);
  }

  /** `lines` is `plain` with ignorable lines put in anywhere and each line dressed. */
  ghost predicate Decorated(plain: seq<string>, lines: seq<string>)
    decreases |lines|
  {
    if lines == [] then plain == []
    else
      var line, rest := lines[|lines| - 1], lines[..|lines| - 1];
      || (Ignorable(line) && Decorated(plain, rest))
      || (plain != [] && Dressed(plain[|plain| - 1], line) && Decorated(plain[..|plain| - 1], rest))
  }

  lemma {:induction false} DecoratedCode(plain: seq<string>, lines: seq<string>)
    requires Decorated(plain, lines)
    ensures CodeLines(lines) == CodeLines(plain)
    decreases |lines|
  {
    hide CodePart, Ignorable, Dressed;
    if lines != [] {
      var line, rest := lines[|lines| - 1], lines[..|lines| - 1];
      if Ignorable(line) && Decorated(plain, rest) {
        IgnorableCode(line);
        DecoratedCode(plain, rest);
      } else {
        DressedCode(plain[|plain| - 1], line);
        DecoratedCode(plain[..|plain| - 1], rest);
      }
    }
  }

  /** Comments, blank lines and space around the code of a printed program change nothing. */
  lemma DecorationIgnored(code: Code, lines: seq<string>)
    requires Valid(code) && Decorated(Shown(code), lines)
    ensures Assembled(lines).Ok? && Assembled(lines).value.code == code
  {
    ShownAssembles(code);
    DecoratedCode(Shown(code), lines);
    OnlyCodeMatters(lines, Shown(code));
  }
}
