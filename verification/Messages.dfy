/** The wire format: requests and responses printed into fixed-size buffers, and parsed back. */
module Messages {
  import opened Devices
  import opened Protocol
  import opened CStrings

  const MAX_REQUEST_SIZE := 24
  const MAX_RESPONSE_SIZE := 64

  class RequestMessage {
    var destination: DeviceId
    var commandCode: Code
    var argument: U16

    constructor (q: Request)
      ensures Value() == q
    {
      destination, commandCode, argument := q.destination, q.commandCode, q.argument;
    }

    function Value(): Request
      reads this
    {
      Request(destination, commandCode, argument)
    }
  }

  class ResponseMessage {
    var source: DeviceId
    var commandCode: Code
    var responseCode: Code
    const arguments: array<U16>
    var argumentsSize: nat

    constructor (source: DeviceId)
      ensures Valid() && Value() == Response(source, NULL_COMMAND, OK, []) && fresh(arguments)
    {
      this.source, commandCode, responseCode, argumentsSize := source, NULL_COMMAND, OK, 0;
      arguments := new U16[MAX_RESPONSE_ARGUMENTS](_ => 0);
    }

    ghost predicate Valid()
      reads this`argumentsSize
    {
      arguments.Length == MAX_RESPONSE_ARGUMENTS && argumentsSize <= MAX_RESPONSE_ARGUMENTS
    }

    function Value(): Response
      requires Valid()
      reads this, arguments
    {
      Response(source, commandCode, responseCode, arguments[..argumentsSize])
    }
  }

  // ---------------------------------------------------------------- the text of a message

  function RequestWords(q: Request): seq<string> {
    [Decimal(q.destination), Decimal(q.commandCode as int)]
    + if HasRequestArgument(q.commandCode) then [Decimal(q.argument)] else []
  }

  function RequestText(q: Request): string { Spaced(RequestWords(q)) }

  function HeaderWords(r: Response): seq<string> {
    [Decimal(r.source), Decimal(r.commandCode as int), Decimal(r.responseCode as int)]
  }

  function ArgumentWords(arguments: seq<U16>): (words: seq<string>)
    ensures |words| == |arguments|
    ensures forall i | 0 <= i < |arguments| :: words[i] == Decimal(arguments[i])
  {
    if arguments == [] then []
    else ArgumentWords(arguments[..|arguments| - 1]) + [Decimal(arguments[|arguments| - 1])]
  }

  function ResponseText(r: Response): string { Spaced(HeaderWords(r) + ArgumentWords(r.arguments)) }

  // ---------------------------------------------------------------- what parsing gives

  /** The word after the two header numbers is looked at only if the code carries an argument. */
  function WithArgument(words: seq<string>, q: Request): (Code, Request) {
    if !HasRequestArgument(q.commandCode) then (OK, q)
    else if words == [] || Number(words[0]) < 0 then (REQUEST_FORMAT_ERROR, q)
    else (OK, q.(argument := Number(words[0]) % 0x1_0000))
  }

  /** The outcome of parsing the words of a request over the previous contents of the structure. */
  function ParsedRequest(words: seq<string>, q: Request): (Code, Request) {
    if |words| < 2 || Number(words[0]) < 0 || Number(words[1]) < 0 then (REQUEST_FORMAT_ERROR, q)
    else WithArgument(words[2..], Request(Number(words[0]) % 0x1_0000, (Number(words[1]) % 0x100) as bv8, q.argument))
  }

  /** The values of argument words, unless one is not a number. */
  function Arguments(words: seq<string>): Option<seq<U16>> {
    if words == [] then Some([])
    else
      match Arguments(words[..|words| - 1])
      case None => None
      case Some(values) =>
        var v := Number(words[|words| - 1]);
        if v < 0 then None else Some(values + [v % 0x1_0000])
  }

  predicate MustHaveArguments(code: Code, responseCode: Code) {
    HasResponseArguments(code) && !(IsInfo(code) && IsError(responseCode))
  }

  predicate MayHaveArguments(code: Code) { IsSwitch(code) || IsDelete(code) }

  /** Words after the header: at most six are read, and the rest is ignored. */
  function ReadArguments(words: seq<string>, r: Response): (Code, Response) {
    if words == [] then (if MustHaveArguments(r.commandCode, r.responseCode) then RESPONSE_FORMAT_ERROR else OK, r)
    else
      match Arguments(if |words| <= MAX_RESPONSE_ARGUMENTS then words else words[..MAX_RESPONSE_ARGUMENTS])
      case None => (RESPONSE_FORMAT_ERROR, r)
      case Some(values) => (OK, r.(arguments := values))
  }

  /** A successful info answer carries at least a state and a time. */
  predicate TooFew(r: Response) { IsInfo(r.commandCode) && !IsError(r.responseCode) && |r.arguments| < 2 }

  /** Truncation of the three header numbers to the widths of their fields. */
  function Header(source: nat, code: nat, responseCode: nat): Response {
    Response(source % 0x1_0000, (code % 0x100) as bv8, (responseCode % 0x100) as bv8, [])
  }

  function AfterHeader(words: seq<string>, p: Response): (Code, Response) {
    var (code, r) := if MustHaveArguments(p.commandCode, p.responseCode) || MayHaveArguments(p.commandCode)
                     then ReadArguments(words, p) else (OK, p);
    (if code == OK && TooFew(r) then RESPONSE_FORMAT_ERROR else code, r)
  }

  function ParsedResponse(words: seq<string>, r: Response): (Code, Response) {
    if |words| < 3 || Number(words[0]) < 0 || Number(words[1]) < 0 || Number(words[2]) < 0
    then (REQUEST_FORMAT_ERROR, r)
    else AfterHeader(words[3..], Header(Number(words[0]), Number(words[1]), Number(words[2])))
  }

  // ---------------------------------------------------------------- what is accepted

  /** A request is accepted exactly when it starts with the numbers its code asks for; more words are ignored. */
  lemma RequestAcceptedIff(words: seq<string>, q: Request)
    ensures var (outcome, v) := ParsedRequest(words, q);
            && outcome in {OK, REQUEST_FORMAT_ERROR}
            && (outcome == OK <==>
                  && |words| >= 2 && Number(words[0]) >= 0 && Number(words[1]) >= 0
                  && (v.commandCode & REQUEST_ARGUMENT_FLAG == REQUEST_ARGUMENT_FLAG ==>
                        |words| >= 3 && Number(words[2]) >= 0))
            && (|words| >= 2 && Number(words[0]) >= 0 && Number(words[1]) >= 0 ==>
                  && v.destination == Number(words[0]) % 0x1_0000
                  && v.commandCode == (Number(words[1]) % 0x100) as bv8)
            && (outcome == OK ==>
                  v.argument == if v.commandCode & REQUEST_ARGUMENT_FLAG == REQUEST_ARGUMENT_FLAG
                                then Number(words[2]) % 0x1_0000 else q.argument)
  {
  }

  lemma {:induction false} ArgumentsIff(words: seq<string>)
    ensures Arguments(words).Some? <==> forall i | 0 <= i < |words| :: Number(words[i]) >= 0
    ensures Arguments(words).Some? ==>
              && |Arguments(words).value| == |words|
              && forall i | 0 <= i < |words| :: Arguments(words).value[i] == Number(words[i]) % 0x1_0000
  {
    if words != [] {
      ArgumentsIff(words[..|words| - 1]);
    }
  }

  /** The codes of a response call for arguments. */
  predicate CallsForArguments(code: Code, responseCode: Code) {
    code & RESPONSE_ARGUMENTS_FLAG == RESPONSE_ARGUMENTS_FLAG
    && !(code & COMMAND_MASK == INFO && responseCode & ERROR_MASK != OK)
  }

  /** Its codes call for arguments, or allow them. */
  predicate TakesArguments(code: Code, responseCode: Code) {
    CallsForArguments(code, responseCode) || code & COMMAND_MASK == SWITCH || code & COMMAND_MASK == DELETE
  }

  /** The words after the header are as many as the codes call for, and those that are read are numbers. */
  predicate SuitsCodes(words: seq<string>, code: Code, responseCode: Code) {
    && (TakesArguments(code, responseCode) ==> forall i | 0 <= i < |words| && i < 6 :: Number(words[i]) >= 0)
    && (CallsForArguments(code, responseCode) ==>
          |words| >= if code & COMMAND_MASK == INFO then 2 else 1)
  }

  lemma InfoIsFlagged(code: Code)
    ensures code & COMMAND_MASK == INFO ==>
              code & RESPONSE_ARGUMENTS_FLAG == RESPONSE_ARGUMENTS_FLAG
              && code & COMMAND_MASK != SWITCH && code & COMMAND_MASK != DELETE
  {
  }

  lemma RestAcceptedIff(words: seq<string>, p: Response)
    requires p.arguments == []
    ensures var (outcome, v) := AfterHeader(words, p);
            && outcome in {OK, RESPONSE_FORMAT_ERROR} && v == p.(arguments := v.arguments)
            && (outcome == OK <==> SuitsCodes(words, p.commandCode, p.responseCode))
            && (outcome == OK ==>
                  && |v.arguments| == (if !TakesArguments(p.commandCode, p.responseCode) then 0
                                       else if |words| <= 6 then |words| else 6)
                  && forall i | 0 <= i < |v.arguments| :: v.arguments[i] == Number(words[i]) % 0x1_0000)
  {
    var read := if |words| <= MAX_RESPONSE_ARGUMENTS then words else words[..MAX_RESPONSE_ARGUMENTS];
    ArgumentsIff(read);
    InfoIsFlagged(p.commandCode);
    assert (forall i | 0 <= i < |words| && i < 6 :: Number(words[i]) >= 0) <==>
           forall i | 0 <= i < |read| :: Number(read[i]) >= 0;
  }

  /**
   A response is accepted exactly when it starts with three numbers and what follows suits its codes; then its arguments
   are the numbers that follow, six at most, and without three numbers nothing is stored at all.
   */
  lemma ResponseAcceptedIff(words: seq<string>, r: Response)
    ensures var (outcome, v) := ParsedResponse(words, r);
            if |words| >= 3 && Number(words[0]) >= 0 && Number(words[1]) >= 0 && Number(words[2]) >= 0 then
              && v.source == Number(words[0]) % 0x1_0000
              && v.commandCode == (Number(words[1]) % 0x100) as bv8
              && v.responseCode == (Number(words[2]) % 0x100) as bv8
              && outcome in {OK, RESPONSE_FORMAT_ERROR}
              && (outcome == OK <==> SuitsCodes(words[3..], v.commandCode, v.responseCode))
              && (outcome == OK ==>
                    && |v.arguments| == (if !TakesArguments(v.commandCode, v.responseCode) then 0
                                         else if |words| <= 9 then |words| - 3 else 6)
                    && forall i | 0 <= i < |v.arguments| :: v.arguments[i] == Number(words[i + 3]) % 0x1_0000)
            else outcome == REQUEST_FORMAT_ERROR && v == r
  {
    if |words| >= 3 && Number(words[0]) >= 0 && Number(words[1]) >= 0 && Number(words[2]) >= 0 {
      RestAcceptedIff(words[3..], Header(Number(words[0]), Number(words[1]), Number(words[2])));
    }
  }

  // ---------------------------------------------------------------- round trips

  lemma NumberTravels(n: U16)
    ensures Number(Decimal(n)) == n && Number(Decimal(n)) % 0x1_0000 == n
  {
    NumberOfDecimalIff(n);
  }

  lemma CodeTravels(c: Code)
    ensures Number(Decimal(c as int)) == c as int && (Number(Decimal(c as int)) % 0x100) as bv8 == c
  {
    NumberOfDecimalIff(c as int);
    ByteAsInt(c);
  }

  lemma RequestTokens(q: Request)
    ensures Tokens(RequestText(q)) == RequestWords(q) && '\0' !in RequestText(q)
  {
    var words := RequestWords(q);
    forall i | 0 <= i < |words| ensures IsWord(words[i]) { }
    TokensOfSpaced(words);
    SpacedHasNoTerminator(words);
  }

  /** Parsing a printed request gives it back; the argument is kept from before when the code does not carry one. */
  lemma RequestRoundTrip(q: Request, before: Request)
    ensures ParsedRequest(Tokens(RequestText(q)), before) ==
            (OK, if HasRequestArgument(q.commandCode) then q else q.(argument := before.argument))
  {
    RequestTokens(q);
    NumberTravels(q.destination);
    CodeTravels(q.commandCode);
    NumberTravels(q.argument);
  }

  lemma ResponseTokens(r: Response)
    ensures Tokens(ResponseText(r)) == HeaderWords(r) + ArgumentWords(r.arguments) && '\0' !in ResponseText(r)
  {
    var words := HeaderWords(r) + ArgumentWords(r.arguments);
    forall i | 0 <= i < |words| ensures IsWord(words[i]) {
      if i >= 3 {
        assert words[i] == Decimal(r.arguments[i - 3]);
      }
    }
    TokensOfSpaced(words);
    SpacedHasNoTerminator(words);
  }

  lemma {:induction false} ArgumentsTravel(arguments: seq<U16>)
    ensures Arguments(ArgumentWords(arguments)) == Some(arguments)
  {
    if arguments != [] {
      var words, last := ArgumentWords(arguments), |arguments| - 1;
      assert words[..last] == ArgumentWords(arguments[..last]);
      ArgumentsTravel(arguments[..last]);
      NumberTravels(arguments[last]);
      assert arguments[..last] + [arguments[last]] == arguments;
    }
  }

  /** The number of arguments is one the parser accepts for these codes, and one that fits the structure. */
  predicate Agrees(r: Response) {
    if MustHaveArguments(r.commandCode, r.responseCode) then
      (if IsInfo(r.commandCode) then 2 else 1) <= |r.arguments| <= MAX_RESPONSE_ARGUMENTS
    else if MayHaveArguments(r.commandCode) then |r.arguments| <= MAX_RESPONSE_ARGUMENTS
    else r.arguments == []
  }

  lemma {:induction false} ArgumentsCount(words: seq<string>)
    ensures Arguments(words).Some? ==> |Arguments(words).value| == |words|
  {
    if words != [] {
      ArgumentsCount(words[..|words| - 1]);
    }
  }

  lemma ReadArgumentsIff(p: Response, r: Response)
    requires p == r.(arguments := [])
    ensures ReadArguments(ArgumentWords(r.arguments), p).1 == r <==> |r.arguments| <= MAX_RESPONSE_ARGUMENTS
    ensures |r.arguments| <= MAX_RESPONSE_ARGUMENTS ==>
              (ReadArguments(ArgumentWords(r.arguments), p).0 == OK <==>
               r.arguments != [] || !MustHaveArguments(r.commandCode, r.responseCode))
  {
    var words := ArgumentWords(r.arguments);
    ArgumentsTravel(r.arguments);
    if |words| > MAX_RESPONSE_ARGUMENTS {
      ArgumentsCount(words[..MAX_RESPONSE_ARGUMENTS]);
    }
  }

  lemma HeaderTravels(r: Response)
    ensures Header(r.source, r.commandCode as int, r.responseCode as int) == r.(arguments := [])
  {
    ByteAsInt(r.commandCode);
    ByteAsInt(r.responseCode);
  }

  lemma AfterHeaderIff(p: Response, r: Response)
    requires p == r.(arguments := [])
    ensures AfterHeader(ArgumentWords(r.arguments), p) == (OK, r) <==> Agrees(r)
  {
    ReadArgumentsIff(p, r);
  }

  /** The header survives, and the rest is read from the words of the arguments. */
  lemma ParsedHeader(r: Response, before: Response)
    ensures ParsedResponse(Tokens(ResponseText(r)), before) ==
            AfterHeader(ArgumentWords(r.arguments), r.(arguments := []))
  {
    ResponseTokens(r);
    var words := Tokens(ResponseText(r));
    assert words[3..] == ArgumentWords(r.arguments);
    NumberTravels(r.source);
    NumberTravels(r.commandCode as int);
    NumberTravels(r.responseCode as int);
    HeaderTravels(r);
  }

  /** Parsing a printed response gives it back exactly when its argument count agrees with its two codes. */
  lemma ResponseRoundTripIff(r: Response, before: Response)
    ensures ParsedResponse(Tokens(ResponseText(r)), before) == (OK, r) <==> Agrees(r)
  {
    ParsedHeader(r, before);
    AfterHeaderIff(r.(arguments := []), r);
  }

  /** The answer of a Hub that does not know the child it is asked to remove: no arguments, so it is not understood. */
  lemma RefusedRemovalIsLost(id: DeviceId, before: Response)
    ensures var r := Response(id, LINK | LINK_REMOVE_CHILD, CHILD_NOT_FOUND, []);
            !Agrees(r) && ParsedResponse(Tokens(ResponseText(r)), before) == (RESPONSE_FORMAT_ERROR, r)
  {
    var r := Response(id, LINK | LINK_REMOVE_CHILD, CHILD_NOT_FOUND, []);
    ParsedHeader(r, before);
    assert r.(arguments := []) == r && ArgumentWords([]) == [];
  }

  // ---------------------------------------------------------------- sizes

  lemma {:induction false} SpacedLength(words: seq<string>, k: nat)
    requires words != [] && forall i | 0 <= i < |words| :: |words[i]| <= k
    ensures |Spaced(words)| <= (k + 1) * |words| - 1
    decreases |words|
  {
    if |words| > 1 {
      SpacedLength(words[1..], k);
    }
  }

  lemma JoinedLength(a: seq<string>, b: seq<string>)
    requires a != [] && b != []
    ensures |Spaced(a + b)| == |Spaced(a)| + 1 + |Spaced(b)|
    decreases |a|
  {
    if |a| == 1 {
      assert (a + b)[1..] == b;
    } else {
      assert (a + b)[1..] == a[1..] + b;
      JoinedLength(a[1..], b);
    }
  }

  lemma RequestLength(q: Request)
    ensures |RequestText(q)| <= 15
  {
    DigitCounts(q.destination);
    DigitCounts(q.commandCode as int);
    DigitCounts(q.argument);
    RequestSpelled(q);
  }

  lemma ThreeNumbersLength(a: nat, b: nat, c: nat)
    requires a < 0x1_0000 && b < 0x100 && c < 0x100
    ensures |Spaced([Decimal(a), Decimal(b), Decimal(c)])| <= 13
  {
    DigitCounts(a);
    DigitCounts(b);
    DigitCounts(c);
    SpacedThree(Decimal(a), Decimal(b), Decimal(c));
  }

  lemma ResponseLength(r: Response)
    ensures |ResponseText(r)| <= 13 + 6 * |r.arguments|
  {
    ThreeNumbersLength(r.source, r.commandCode as int, r.responseCode as int);
    if r.arguments == [] {
      assert HeaderWords(r) + ArgumentWords(r.arguments) == HeaderWords(r);
    } else {
      var words := ArgumentWords(r.arguments);
      forall i | 0 <= i < |words| ensures |words[i]| <= 5 { DigitCounts(r.arguments[i]); }
      SpacedLength(words, 5);
      JoinedLength(HeaderWords(r), words);
    }
  }

  /** Every request, and every response the structure can hold, fits its pipe message with its terminator. */
  lemma MessagesFit(q: Request, r: Response)
    requires |r.arguments| <= MAX_RESPONSE_ARGUMENTS
    ensures |RequestText(q)| < MAX_REQUEST_SIZE && |ResponseText(r)| < MAX_RESPONSE_SIZE
  {
    RequestLength(q);
    ResponseLength(r);
  }

  // ---------------------------------------------------------------- printing

  lemma RequestSpelled(q: Request)
    ensures RequestText(q) ==
            if HasRequestArgument(q.commandCode)
            then Decimal(q.destination) + (" " + (Decimal(q.commandCode as int) + (" " + Decimal(q.argument))))
            else Decimal(q.destination) + (" " + Decimal(q.commandCode as int))
  {
    SpacedTwo(Decimal(q.destination), Decimal(q.commandCode as int));
    SpacedThree(Decimal(q.destination), Decimal(q.commandCode as int), Decimal(q.argument));
    assert RequestWords(q) == if HasRequestArgument(q.commandCode)
                              then [Decimal(q.destination), Decimal(q.commandCode as int), Decimal(q.argument)]
                              else [Decimal(q.destination), Decimal(q.commandCode as int)];
  }

  method FormatRequest(request: RequestMessage, buffer: array<char>, size: nat) returns (code: Code)
    requires size <= buffer.Length
    modifies buffer
    ensures code == if |RequestText(request.Value())| < size then OK else BUFFER_TOO_SHORT
    ensures Printed(old(buffer[..]), buffer[..], 0, size, RequestText(request.Value()))
  {
    var length;
    RequestSpelled(request.Value());
    if HasRequestArgument(request.commandCode) {
      length := Print(buffer, 0, size,
        Decimal(request.destination)
        + (" " + (Decimal(request.commandCode as int) + (" " + Decimal(request.argument)))));
    } else {
      length := Print(buffer, 0, size, Decimal(request.destination) + (" " + Decimal(request.commandCode as int)));
    }
    if length >= size {
      return BUFFER_TOO_SHORT;
    }
    return OK;
  }

  /** The text of a response grows by one argument at a time. */
  lemma OneMoreArgument(r: Response, arguments: seq<U16>, a: U16)
    ensures ResponseText(r.(arguments := arguments + [a])) ==
            ResponseText(r.(arguments := arguments)) + (" " + Decimal(a))
  {
    var words := HeaderWords(r) + ArgumentWords(arguments);
    assert (arguments + [a])[..|arguments|] == arguments;
    assert HeaderWords(r) + ArgumentWords(arguments + [a]) == words + [Decimal(a)];
    SpacedAppend(words, Decimal(a));
  }

  lemma HeaderSpelled(r: Response)
    ensures ResponseText(r.(arguments := [])) ==
            Decimal(r.source) + (" " + (Decimal(r.commandCode as int) + (" " + Decimal(r.responseCode as int))))
  {
    var words := HeaderWords(r);
    assert words + ArgumentWords([]) == words;
    SpacedThree(Decimal(r.source), Decimal(r.commandCode as int), Decimal(r.responseCode as int));
  }

  lemma {:induction false} TextGrows(r: Response, i: nat)
    requires i <= |r.arguments|
    ensures |ResponseText(r.(arguments := r.arguments[..i]))| <= |ResponseText(r)|
    decreases |r.arguments| - i
  {
    if i < |r.arguments| {
      assert r.arguments[..i + 1] == r.arguments[..i] + [r.arguments[i]];
      OneMoreArgument(r, r.arguments[..i], r.arguments[i]);
      TextGrows(r, i + 1);
    } else {
      assert r.arguments[..i] == r.arguments;
    }
  }

  /** What has been printed after `i` arguments, with `remaining` bytes left. */
  ghost predicate PrintedUpTo(b: seq<char>, c: seq<char>, size: int, r: Response, i: nat, remaining: int) {
    && i <= |r.arguments|
    && var text := ResponseText(r.(arguments := r.arguments[..i]));
       |text| + remaining == size && 0 < remaining && Printed(b, c, 0, size, text)
  }

  lemma PrintArgument(b: seq<char>, c: seq<char>, d: seq<char>, size: int, r: Response, i: nat, remaining: int)
    requires PrintedUpTo(b, c, size, r, i, remaining) && i < |r.arguments|
    requires Printed(c, d, size - remaining, remaining, " " + Decimal(r.arguments[i]))
    ensures var left := remaining - |" " + Decimal(r.arguments[i])|;
            && (left > 0 ==> PrintedUpTo(b, d, size, r, i + 1, left))
            && (left <= 0 ==> |ResponseText(r)| >= size)
  {
    var text, more := ResponseText(r.(arguments := r.arguments[..i])), " " + Decimal(r.arguments[i]);
    assert r.arguments[..i + 1] == r.arguments[..i] + [r.arguments[i]];
    OneMoreArgument(r, r.arguments[..i], r.arguments[i]);
    if |text| + |more| < size {
      PrintedOn(b, c, d, size, text, more);
    } else {
      TextGrows(r, i + 1);
    }
  }

  method FormatHeader(response: ResponseMessage, buffer: array<char>, size: nat) returns (length: nat)
    requires response.Valid() && size <= buffer.Length
    modifies buffer
    ensures response.Valid() && response.Value() == old(response.Value())
    ensures length < size ==> PrintedUpTo(old(buffer[..]), buffer[..], size, response.Value(), 0, size - length)
    ensures length >= size ==> |ResponseText(response.Value())| >= size
    ensures forall i | size <= i < buffer.Length :: buffer[..][i] == old(buffer[..])[i]
  {
    HeaderSpelled(response.Value());
    TextGrows(response.Value(), 0);
    length := Print(buffer, 0, size,
      Decimal(response.source)
      + (" " + (Decimal(response.commandCode as int) + (" " + Decimal(response.responseCode as int)))));
  }

  /** The string is already terminated where the last argument ended. */
  method Terminate(buffer: array<char>, position: nat)
    requires position < buffer.Length && buffer[position] == '\0'
    modifies buffer
    ensures buffer[..] == old(buffer[..])
  {
    buffer[position] := '\0';
  }

  /** Prints one argument into the `remaining` bytes at `position`. */
  method FormatArgument(buffer: array<char>, position: nat, remaining: nat, argument: U16,
                        ghost b: seq<char>, ghost r: Response, ghost i: nat) returns (length: nat)
    requires position + remaining <= buffer.Length && i < |r.arguments| && argument == r.arguments[i]
    requires PrintedUpTo(b, buffer[..], position + remaining, r, i, remaining)
    modifies buffer
    ensures length < remaining ==> PrintedUpTo(b, buffer[..], position + remaining, r, i + 1, remaining - length)
    ensures length >= remaining ==> |ResponseText(r)| >= position + remaining
    ensures forall j | position + remaining <= j < buffer.Length :: buffer[..][j] == old(buffer[..])[j]
  {
    ghost var c := buffer[..];
    length := Print(buffer, position, remaining, " " + Decimal(argument));
    PrintArgument(b, c, buffer[..], position + remaining, r, i, remaining);
  }

  method FormatResponse(response: ResponseMessage, buffer: array<char>, size: nat) returns (code: Code)
    requires response.Valid() && size <= buffer.Length
    modifies buffer
    ensures response.Valid() && response.Value() == old(response.Value())
    ensures code == if |ResponseText(response.Value())| < size then OK else BUFFER_TOO_SHORT
    ensures code == OK ==> Printed(old(buffer[..]), buffer[..], 0, size, ResponseText(response.Value()))
    ensures forall i | size <= i < buffer.Length :: buffer[..][i] == old(buffer[..])[i]
  {
    ghost var b, r := buffer[..], response.Value();
    var length := FormatHeader(response, buffer, size);
    if length >= size {
      return BUFFER_TOO_SHORT;
    }
    var remaining: int, position: nat := size - length, length;
    for i := 0 to response.argumentsSize
      invariant response.Valid() && response.Value() == r
      invariant position + remaining == size && PrintedUpTo(b, buffer[..], size, r, i, remaining)
    {
      length := FormatArgument(buffer, position, remaining, response.arguments[i], b, r, i);
      remaining := remaining - length;
      if remaining <= 0 {
        return BUFFER_TOO_SHORT;
      }
      position := position + length;
    }
    assert r.arguments[..response.argumentsSize] == r.arguments;
    Terminate(buffer, position);
    return OK;
  }

  // ---------------------------------------------------------------- parsing

  /** The words of the text in the first `size` bytes. */
  ghost function WordsIn(b: seq<char>, size: nat): Option<seq<string>>
    requires size <= |b|
  {
    match Content(b[..size])
    case None => None
    case Some(s) => Some(Tokens(s))
  }

  lemma TextEnds(b: seq<char>, size: nat, n: nat)
    requires n < size <= |b| && Content(b[..size]).Some? && n == |Content(b[..size]).value|
    requires Holds(b, 0, Content(b[..size]).value)
    ensures EndsAt(b, 0, n) && WordsIn(b, size) == Some(Tokens(b[0..n]))
  {
  }

  /** The two numbers every message starts with. */
  method ParsePair(buffer: array<char>, ghost n: nat) returns (ok: bool, id: int, commandCode: int, last: nat)
    requires EndsAt(buffer[..], 0, n)
    modifies buffer
    ensures var words := Tokens(old(buffer[..])[0..n]);
            && (ok <==> |words| >= 2 && Number(words[0]) >= 0 && Number(words[1]) >= 0)
            && (ok ==> id == Number(words[0]) && commandCode == Number(words[1])
                       && EndsAt(buffer[..], last, n) && Tokens(buffer[..][last..n]) == words[2..])
  {
    ghost var words := Tokens(buffer[..][0..n]);
    var present;
    commandCode := 0;
    present, id, last := NextNumber(buffer, 0, n);
    if !present || id < 0 {
      return false, id, 0, last;
    }
    present, commandCode, last := NextNumber(buffer, last, n);
    ok := present && commandCode >= 0;
    assert present ==> words[1..][1..] == words[2..];
  }

  lemma PairMissing(words: seq<string>, q: Request)
    requires |words| < 2 || Number(words[0]) < 0 || Number(words[1]) < 0
    ensures ParsedRequest(words, q) == (REQUEST_FORMAT_ERROR, q)
  {
  }

  method ParseArgument(request: RequestMessage, buffer: array<char>, from: nat, ghost n: nat) returns (code: Code)
    requires EndsAt(buffer[..], from, n)
    modifies request`argument, buffer
    ensures (code, request.Value()) == WithArgument(Tokens(old(buffer[..])[from..n]), old(request.Value()))
  {
    if HasRequestArgument(request.commandCode) {
      var present, argument, last := NextNumber(buffer, from, n);
      if !present || argument < 0 {
        return REQUEST_FORMAT_ERROR;
      }
      request.argument := argument % 0x1_0000;
    }
    return OK;
  }

  method ParseRequest(request: RequestMessage, buffer: array<char>, size: nat) returns (code: Code)
    requires size <= buffer.Length
    modifies request, buffer
    ensures match WordsIn(old(buffer[..]), size)
            case None => code == BUFFER_TOO_SHORT && request.Value() == old(request.Value())
            case Some(words) => (code, request.Value()) == ParsedRequest(words, old(request.Value()))
  {
    ghost var q := request.Value();
    var n := StringLength(buffer, size);
    if n == size {
      return BUFFER_TOO_SHORT;
    }
    TextEnds(buffer[..], size, n);
    ghost var words := Tokens(buffer[..][0..n]);
    var ok, destination, commandCode, last := ParsePair(buffer, n);
    if !ok {
      PairMissing(words, q);
      return REQUEST_FORMAT_ERROR;
    }
    request.destination := destination % 0x1_0000;
    request.commandCode := (commandCode % 0x100) as bv8;
    assert request.Value() == Request(destination % 0x1_0000, (commandCode % 0x100) as bv8, q.argument);
    code := ParseArgument(request, buffer, last, n);
  }

  /** One bad word spoils the longer list. */
  lemma {:induction false} BadArgument(words: seq<string>, i: nat)
    requires i <= |words| && Arguments(words[..i]) == None
    ensures Arguments(words) == None
    decreases |words|
  {
    if i < |words| {
      assert words[..|words| - 1][..i] == words[..i];
      BadArgument(words[..|words| - 1], i);
    } else {
      assert words[..i] == words;
    }
  }

  lemma NextArgument(words: seq<string>, i: nat, values: seq<U16>)
    requires i < |words| && Arguments(words[..i]) == Some(values)
    ensures Arguments(words[..i + 1]) ==
            if Number(words[i]) < 0 then None else Some(values + [Number(words[i]) % 0x1_0000])
  {
    assert words[..i + 1][..i] == words[..i];
  }

  lemma ReadBad(words: seq<string>, i: nat, p: Response)
    requires i < |words| && i < MAX_RESPONSE_ARGUMENTS && Arguments(words[..i + 1]) == None
    ensures ReadArguments(words, p) == (RESPONSE_FORMAT_ERROR, p)
  {
    var used := if |words| <= MAX_RESPONSE_ARGUMENTS then words else words[..MAX_RESPONSE_ARGUMENTS];
    assert used[..i + 1] == words[..i + 1];
    BadArgument(used, i + 1);
  }

  lemma ReadDone(words: seq<string>, i: nat, p: Response, values: seq<U16>)
    requires 0 < i <= |words| && i <= MAX_RESPONSE_ARGUMENTS && (i == |words| || i == MAX_RESPONSE_ARGUMENTS)
    requires Arguments(words[..i]) == Some(values)
    ensures ReadArguments(words, p) == (OK, p.(arguments := values))
  {
    assert words[..i] == if |words| <= MAX_RESPONSE_ARGUMENTS then words else words[..MAX_RESPONSE_ARGUMENTS];
  }

  /** The word `i` is at `token`, and the later ones are still to be cut out after `last`. */
  ghost predicate AtWord(words: seq<string>, i: nat, b: seq<char>, token: int, last: int, n: int) {
    && EndsAt(b, last, n) && i <= |words| && (token == -1 <==> i == |words|)
    && (token != -1 ==> Holds(b, token, words[i]) && Tokens(b[last..n]) == words[i + 1..])
  }

  lemma FirstTaken(b: seq<char>, c: seq<char>, from: int, n: int, token: int, last: int)
    requires Took(b, c, from, n, token, last)
    ensures AtWord(Tokens(b[from..n]), 0, c, token, last, n)
  {
  }

  lemma NextTaken(words: seq<string>, i: nat, b: seq<char>, token: int, last: int, n: int, c: seq<char>,
                  token': int, last': int)
    requires AtWord(words, i, b, token, last, n) && token != -1 && Took(b, c, last, n, token', last')
    ensures AtWord(words, i + 1, c, token', last', n)
  {
    var rest := words[i + 1..];
    assert rest != [] ==> rest[0] == words[i + 1] && rest[1..] == words[i + 2..];
  }

  /** Moves from one word to the next. */
  method NextWord(buffer: array<char>, from: nat, ghost n: nat, ghost words: seq<string>, ghost i: nat,
                  ghost current: int)
    returns (token: int, last: nat)
    requires AtWord(words, i, buffer[..], current, from, n) && current != -1
    modifies buffer
    ensures AtWord(words, i + 1, buffer[..], token, last, n)
  {
    ghost var b := buffer[..];
    token, last := NextToken(buffer, from, n);
    NextTaken(words, i, b, current, from, n, buffer[..], token, last);
  }

  method FirstWordOf(buffer: array<char>, from: nat, ghost n: nat) returns (token: int, last: nat)
    requires EndsAt(buffer[..], from, n)
    modifies buffer
    ensures AtWord(Tokens(old(buffer[..])[from..n]), 0, buffer[..], token, last, n)
  {
    ghost var b := buffer[..];
    token, last := NextToken(buffer, from, n);
    FirstTaken(b, buffer[..], from, n, token, last);
  }

  /** Reads arguments until there is no word left or the structure is full. */
  method ParseArguments(response: ResponseMessage, buffer: array<char>, from: nat, ghost n: nat) returns (code: Code)
    requires response.Valid() && response.argumentsSize == 0 && EndsAt(buffer[..], from, n)
    modifies response`argumentsSize, response.arguments, buffer
    ensures response.Valid()
    ensures (code, response.Value()) == ReadArguments(Tokens(old(buffer[..])[from..n]), old(response.Value()))
  {
    ghost var words := Tokens(buffer[..][from..n]);
    ghost var p := response.Value();
    var token, last := FirstWordOf(buffer, from, n);
    if token == -1 {
      return if MustHaveArguments(response.commandCode, response.responseCode) then RESPONSE_FORMAT_ERROR else OK;
    }
    var i := 0;
    while token != -1 && i < MAX_RESPONSE_ARGUMENTS
      invariant response.Valid() && response.argumentsSize == 0
      invariant AtWord(words, i, buffer[..], token, last, n) && 0 < |words|
      invariant i <= MAX_RESPONSE_ARGUMENTS && Arguments(words[..i]) == Some(response.arguments[..i])
      decreases MAX_RESPONSE_ARGUMENTS - i
    {
      ghost var values := response.arguments[..i];
      var parsed := StringToUnsigned(buffer, token, words[i]);
      NextArgument(words, i, values);
      if parsed < 0 {
        ReadBad(words, i, p);
        return RESPONSE_FORMAT_ERROR;
      }
      response.arguments[i] := parsed % 0x1_0000;
      assert response.arguments[..i + 1] == values + [parsed % 0x1_0000];
      token, last := NextWord(buffer, last, n, words, i, token);
      i := i + 1;
    }
    ReadDone(words, i, p, response.arguments[..i]);
    response.argumentsSize := i;
    return OK;
  }

  lemma HeaderMissing(words: seq<string>, r: Response)
    requires |words| < 3 || Number(words[0]) < 0 || Number(words[1]) < 0 || Number(words[2]) < 0
    ensures ParsedResponse(words, r) == (REQUEST_FORMAT_ERROR, r)
  {
  }

  /** The three numbers a response starts with. */
  method ParseHeader(buffer: array<char>, ghost n: nat)
    returns (ok: bool, source: int, commandCode: int, responseCode: int, last: nat)
    requires EndsAt(buffer[..], 0, n)
    modifies buffer
    ensures var words := Tokens(old(buffer[..])[0..n]);
            && (ok <==> |words| >= 3 && Number(words[0]) >= 0 && Number(words[1]) >= 0 && Number(words[2]) >= 0)
            && (ok ==> source == Number(words[0]) && commandCode == Number(words[1]) && responseCode == Number(words[2])
                       && EndsAt(buffer[..], last, n) && Tokens(buffer[..][last..n]) == words[3..])
  {
    ghost var words := Tokens(buffer[..][0..n]);
    responseCode := 0;
    ok, source, commandCode, last := ParsePair(buffer, n);
    if ok {
      assert |words| > 2 ==> words[2..][1..] == words[3..];
      ok, responseCode, last := NextNumber(buffer, last, n);
      ok := ok && responseCode >= 0;
    }
  }

  /** Everything after the header. */
  method ParseRest(response: ResponseMessage, buffer: array<char>, from: nat, ghost n: nat) returns (code: Code)
    requires response.Valid() && response.argumentsSize == 0 && EndsAt(buffer[..], from, n)
    modifies response`argumentsSize, response.arguments, buffer
    ensures response.Valid()
    ensures (code, response.Value()) == AfterHeader(Tokens(old(buffer[..])[from..n]), old(response.Value()))
  {
    code := OK;
    if MustHaveArguments(response.commandCode, response.responseCode) || MayHaveArguments(response.commandCode) {
      code := ParseArguments(response, buffer, from, n);
    }
    if code == OK && IsInfo(response.commandCode) && !IsError(response.responseCode) && response.argumentsSize < 2 {
      code := RESPONSE_FORMAT_ERROR;
    }
  }

  method ParseResponse(response: ResponseMessage, buffer: array<char>, size: nat) returns (code: Code)
    requires response.Valid() && size <= buffer.Length
    modifies response, response.arguments, buffer
    ensures response.Valid()
    ensures match WordsIn(old(buffer[..]), size)
            case None => code == BUFFER_TOO_SHORT && response.Value() == old(response.Value())
            case Some(words) => (code, response.Value()) == ParsedResponse(words, old(response.Value()))
  {
    ghost var r := response.Value();
    var n := StringLength(buffer, size);
    if n == size {
      return BUFFER_TOO_SHORT;
    }
    TextEnds(buffer[..], size, n);
    ghost var words := Tokens(buffer[..][0..n]);
    var ok, source, commandCode, responseCode, last := ParseHeader(buffer, n);
    if !ok {
      HeaderMissing(words, r);
      return REQUEST_FORMAT_ERROR;
    }
    response.source := source % 0x1_0000;
    response.commandCode := (commandCode % 0x100) as bv8;
    response.responseCode := (responseCode % 0x100) as bv8;
    response.argumentsSize := 0;
    assert response.Value() == Header(source, commandCode, responseCode);
    code := ParseRest(response, buffer, last, n);
  }

  // ---------------------------------------------------------------- through a pipe

  /** A request printed into any buffer long enough is read back from it, whatever the buffer held. */
  lemma RequestThroughPipe(q: Request, before: Request, b: seq<char>, c: seq<char>, size: nat)
    requires |RequestText(q)| < size && Printed(b, c, 0, size, RequestText(q))
    ensures WordsIn(c, size).Some?
    ensures ParsedRequest(WordsIn(c, size).value, before) ==
            (OK, if HasRequestArgument(q.commandCode) then q else q.(argument := before.argument))
  {
    RequestTokens(q);
    PrintedIsContent(b, c, size, RequestText(q));
    RequestRoundTrip(q, before);
  }

  /** The same for responses whose argument count agrees with their codes, and for no others. */
  lemma ResponseThroughPipeIff(r: Response, before: Response, b: seq<char>, c: seq<char>, size: nat)
    requires |ResponseText(r)| < size && Printed(b, c, 0, size, ResponseText(r))
    ensures WordsIn(c, size).Some?
    ensures ParsedResponse(WordsIn(c, size).value, before) == (OK, r) <==> Agrees(r)
  {
    ResponseTokens(r);
    PrintedIsContent(b, c, size, ResponseText(r));
    ResponseRoundTripIff(r, before);
  }
}
