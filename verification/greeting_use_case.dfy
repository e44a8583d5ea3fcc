/** `GreetingUseCase`: validates the request's name, greets it, and maps validation
    failures into the use case's own error type. */
module GreetingUseCases {
  import opened Results
  import opened Text
  import opened Names
  import opened GreetingServices
  import opened GreetingDtos

  /** The use case's only failure: an invalid name, carrying the `NameError` unchanged. */
  datatype GreetingUseCaseError = InvalidName(cause: NameError) {

    /** The display text: "Invalid name: " followed by the cause's own message. */
    function Message(): string {
      "Invalid name: " + cause.Message()
    }
  }

  /** The use case holds only its (stateless) greeting service. */
  datatype GreetingUseCase = GreetingUseCase(service: GreetingService)

  /** `GreetingUseCase::execute`: succeeds exactly when the name is accepted, and then
      answers "Hello, <name>!" with the request's name untouched; otherwise fails with
      `InvalidName` of precisely the error `Names.New` reported. */
  function Execute(useCase: GreetingUseCase, request: GreetingRequest)
    : (r: Result<GreetingResponse, GreetingUseCaseError>)
    ensures r.Ok? <==> New(request.name).Ok?
    ensures r.Ok? ==> r.value.message == "Hello, " + request.name + "!"
    ensures r.Err? ==> New(request.name).Err? && r.error == InvalidName(New(request.name).error)
  {
    match New(request.name).MapErr((e: NameError) => InvalidName(e))
    case Err(e) => Err(e)
    case Ok(name) => Ok(GreetingResponse(Greet(useCase.service, name)))
  }

  /** The outcome in terms of the input alone: all-whitespace names fail as `Empty`,
      non-blank names over 100 bytes fail as `TooLong`, every other name succeeds. */
  lemma ExecuteOutcome(useCase: GreetingUseCase, request: GreetingRequest)
    ensures Execute(useCase, request).Ok? <==> IsValidName(request.name)
    ensures Execute(useCase, request) == Err(InvalidName(Empty)) <==> AllWhitespace(request.name)
    ensures Execute(useCase, request) == Err(InvalidName(TooLong))
        <==> !AllWhitespace(request.name) && ByteLen(request.name) > MaxNameLength
  {
  }

  /** The result depends on nothing but the request's name. */
  lemma ExecuteDependsOnlyOnName(u1: GreetingUseCase, u2: GreetingUseCase,
                                 r1: GreetingRequest, r2: GreetingRequest)
    requires r1.name == r2.name
    ensures Execute(u1, r1) == Execute(u2, r2)
  {
  }

  /** The use-case message is "Invalid name: " in front of the unchanged cause message,
      so distinct causes stay distinguishable. */
  lemma InvalidNameMessage(a: NameError, b: NameError)
    ensures |InvalidName(a).Message()| == 14 + |a.Message()|
    ensures InvalidName(a).Message()[..14] == "Invalid name: "
    ensures InvalidName(a).Message()[14..] == a.Message()
    ensures InvalidName(a).Message() == InvalidName(b).Message() <==> a == b
  {
  }

  /** A successful response is at most 108 bytes long and gives back the request's name
      between its fixed prefix and suffix. */
  lemma ResponseBounds(useCase: GreetingUseCase, request: GreetingRequest)
    requires Execute(useCase, request).Ok?
    ensures var m := Execute(useCase, request).value.message;
      ByteLen(m) <= MaxNameLength + 8 && m[7..|m| - 1] == request.name
  {
  }

  /** An empty request name always fails, with "Invalid name: Name cannot be empty". */
  lemma EmptyRequestFails(useCase: GreetingUseCase)
    ensures Execute(useCase, GreetingRequest("")).Err?
    ensures Execute(useCase, GreetingRequest("")).error.Message()
         == "Invalid name: Name cannot be empty"
  {
  }

  /** The scenario of the source's use-case test: "World" is answered "Hello, World!". */
  lemma ExecuteWorld(useCase: GreetingUseCase)
    ensures Execute(useCase, GreetingRequest("World")).Ok?
    ensures Execute(useCase, GreetingRequest("World")).value.message == "Hello, World!"
  {
    assert !IsWhitespace("World"[0]);
  }

  /** The query layer's test input: "Test" is answered "Hello, Test!". */
  lemma ExecuteTest(useCase: GreetingUseCase)
    ensures Execute(useCase, GreetingRequest("Test")).Ok?
    ensures Execute(useCase, GreetingRequest("Test")).value.message == "Hello, Test!"
  {
    assert !IsWhitespace("Test"[0]);
  }

  /** Three spaces are blank, so they fail as `Empty` although they are not empty. */
  lemma ExecuteBlank(useCase: GreetingUseCase)
    ensures Execute(useCase, GreetingRequest("   ")) == Err(InvalidName(Empty))
  {
  }

  /** One hundred `a`s, the longest accepted name, are greeted verbatim. */
  lemma ExecuteHundredLetters(useCase: GreetingUseCase)
    ensures Execute(useCase, GreetingRequest(Repeat('a', 100))).Ok?
    ensures Execute(useCase, GreetingRequest(Repeat('a', 100))).value.message
         == "Hello, " + Repeat('a', 100) + "!"
  {
    RepeatedLetterBoundary();
  }

  /** One hundred and one `a`s fail as `TooLong`. */
  lemma ExecuteHundredAndOneLetters(useCase: GreetingUseCase)
    ensures Execute(useCase, GreetingRequest(Repeat('a', 101))) == Err(InvalidName(TooLong))
  {
  }

  /** The message reported for an over-long name, in full. */
  lemma TooLongMessage()
    ensures InvalidName(TooLong).Message()
         == "Invalid name: Name is too long (maximum 100 characters)"
  {
    assert TooLong.Message() == "Name is too long (maximum 100 characters)";
    assert "Invalid name: " + "Name is too long (maximum 100 characters)"
        == "Invalid name: Name is too long (maximum 100 characters)";
  }
}
