/** `GreetingService`: formats the greeting for an already validated `Name`. */
module GreetingServices {
  import opened Text
  import opened Names

  /** The service is a field-less struct: it holds no state. */
  datatype GreetingService = GreetingService

  /** `GreetingService::greet`: total on every `Name`. The greeting is "Hello, ", then the
      stored name verbatim (not trimmed, not re-cased), then "!"; it is eight characters and
      eight bytes longer than the name, so never more than 108 bytes. */
  function Greet(service: GreetingService, n: Name): (g: string)
    ensures |g| == |Value(n)| + 8
    ensures g[..7] == "Hello, " && g[|g| - 1] == '!'
    ensures g[7..|g| - 1] == Value(n)
    ensures ByteLen(g) == ByteLen(Value(n)) + 8 <= MaxNameLength + 8
  {
    ByteLenAppend("Hello, ", Value(n));
    ByteLenAppend("Hello, " + Value(n), "!");
    "Hello, " + Value(n) + "!"
  }

  /** Equal names give equal greetings, and the greeting determines the name. */
  lemma GreetInjective(s1: GreetingService, s2: GreetingService, a: Name, b: Name)
    ensures Greet(s1, a) == Greet(s2, b) <==> a == b
  {
  }

  /** The example of the source's test: "World" is greeted as "Hello, World!". */
  lemma GreetWorld(service: GreetingService)
    ensures New("World").Ok?
    ensures Greet(service, New("World").value) == "Hello, World!"
  {
    assert !IsWhitespace("World"[0]);
  }
}
