# Greeting core: a Dafny model

This project models the domain and application core of a small layered service that greets a named caller. The core is a pure pipeline with three steps:

1. `Name::new` validates a raw string. A string that is blank after trimming is refused as `Empty`. A string longer than 100 is refused as `TooLong`. Otherwise the original, untrimmed string is stored.
2. `GreetingService::greet` formats the stored name as `"Hello, " + name + "!"`.
3. `GreetingUseCase::execute` composes the two steps. It wraps a `NameError` into `GreetingUseCaseError::InvalidName`, whose message is `"Invalid name: "` followed by the cause's message.

Modules follow the source files:

| module | file | models |
|---|---|---|
| `Results` | results.dfy | Rust's `Result` and the `?`/`#[from]` error conversion |
| `Text` | text.dfy | `char::is_whitespace`, `str::trim`, and `str::len` (UTF-8 bytes) |
| `Names` | name.dfy | `src/domain/value_objects/name.rs` |
| `GreetingServices` | greeting_service.dfy | `src/domain/services/greeting_service.rs` |
| `GreetingDtos` | greeting_dto.dfy | `src/application/dtos/greeting_dto.rs` |
| `GreetingUseCases` | greeting_use_case.dfy | `src/application/use_cases/greeting_use_case.rs` |

Modelling choices:
- A Dafny `string` is a sequence of Unicode scalar values, which is what a Rust `String` holds.
- Rust's `String::len()` counts UTF-8 bytes. It is modelled by `Text.ByteLen`, which sums the 1–4 byte width of each scalar value.
- `Name` is a subset type. Every value of the type satisfies `IsValidName`: not all whitespace, and at most 100 bytes. This stands in for the private tuple field and the single validating constructor.
- Rust's `trim` uses `char::is_whitespace`. `Text.IsWhitespace` gives that predicate the Unicode White_Space table. No general lemma depends on the table. Only the concrete examples use it, for space, `a` and a few letters.
- The field-less `GreetingService` is a single-constructor datatype. So is `GreetingUseCase`, which holds only the service. Neither holds state.

The program disagrees with itself on the unit of the length limit. The `TooLong` message (src/domain/value_objects/name.rs:10) speaks of "100 characters". The check at src/domain/value_objects/name.rs:20 compares `String::len()`, which counts bytes. The model follows the check. `Names.LimitCountsBytes` proves that 51 copies of U+00E9 are 51 characters but 102 bytes, and are therefore `TooLong`. `Names.AsciiNameRule` proves that on ASCII input the two readings agree.

## Model

| member | source | states |
|---|---|---|
| Results.MapErrInjective | src/application/use_cases/greeting_use_case.rs:9 | The `#[from]` conversion that `?` applies loses no information. Under an injective error conversion, two results convert to the same result if and only if they were equal. |
| Text.TrimStart | src/domain/value_objects/name.rs:16 | The result is a suffix of the input. Everything dropped is whitespace. The result is empty or starts with a non-whitespace character. |
| Text.TrimEnd | src/domain/value_objects/name.rs:16 | The result is a prefix of the input. Everything dropped is whitespace. The result is empty or ends with a non-whitespace character. |
| Text.Trim | src/domain/value_objects/name.rs:16 | The result is the contiguous slice of the input left after removing exactly the leading and the trailing whitespace. Everything before and after the slice is whitespace. A non-empty result starts and ends with non-whitespace. The result is empty if and only if every character is whitespace. |
| Text.Utf8Width | src/domain/value_objects/name.rs:20 | Each scalar value takes 1 to 4 bytes. It takes exactly 1 if and only if it is ASCII. |
| Text.ByteLen | src/domain/value_objects/name.rs:20 | The byte length lies between the character count and four times the character count. It is zero only for the empty string. |
| Text.ByteLenAscii | src/domain/value_objects/name.rs:20 | Byte length equals character count if and only if the string is all ASCII. |
| Text.ByteLenAppend | src/domain/services/greeting_service.rs:11 | The byte length of a concatenation is the sum of the byte lengths. |
| Text.Repeat | src/domain/value_objects/name.rs:56 | `"a".repeat(n)`: exactly `n` characters, every one equal to the given character. |
| Text.ByteLenRepeat | src/domain/value_objects/name.rs:56 | `n` copies of a character take `n` times its width in bytes. |
| Names.New | src/domain/value_objects/name.rs:15-25 | Succeeds if and only if the input is not all whitespace and is at most 100 bytes. On success it stores the input unchanged. `Err(Empty)` exactly when the input is all whitespace, including the empty string. `Err(TooLong)` exactly when it is non-blank and over 100 bytes. |
| Names.Value | src/domain/value_objects/name.rs:27-29 | The stored string satisfies the `Name` invariant. Feeding it back to `New` rebuilds the same `Name`, so `Value` is the inverse of `New`. |
| Names.AsRef | src/domain/value_objects/name.rs:32-36 | `as_ref()` always returns what `value()` returns. |
| Names.MessageIdentifiesError | src/domain/value_objects/name.rs:6-12 | The two error messages are non-empty and distinct, so a message determines its variant. |
| Names.BlankBeatsLength | src/domain/value_objects/name.rs:16-22 | Rule order: an all-whitespace input over 100 bytes is `Empty`, not `TooLong`. |
| Names.LongBlankIsEmpty | src/domain/value_objects/name.rs:16-22 | A concrete case of the rule order: 101 spaces exceed the limit yet are `Empty`. |
| Names.LengthBoundary | src/domain/value_objects/name.rs:20-24 | For a non-blank input, 100 bytes is accepted and stored verbatim, and 101 bytes is `TooLong`. |
| Names.RepeatedLetterBoundary | src/domain/value_objects/name.rs:55-59 | 100 `a`s are accepted and stored verbatim. 101 `a`s, the source test's input, are `TooLong`. |
| Names.LimitCountsBytes | src/domain/value_objects/name.rs:10-21 | The limit counts bytes: 51 copies of U+00E9 are within 100 characters but are `TooLong`. |
| Names.AsciiNameRule | src/domain/value_objects/name.rs:15-25 | On ASCII input, acceptance is exactly "not blank and at most 100 characters". |
| Names.ValueInjective | src/domain/value_objects/name.rs:3-4 | Two names are equal if and only if their stored strings are equal. |
| Names.NameExamples | src/domain/value_objects/name.rs:42-65 | "John" reads back as "John" through both `value` and `as_ref`. The empty string and three spaces are `Empty`. |
| GreetingServices.Greet | src/domain/services/greeting_service.rs:10-12 | Total on every `Name`. The output is "Hello, ", then the stored name verbatim, then "!". It is 8 characters and 8 bytes longer than the name, so at most 108 bytes. |
| GreetingServices.GreetInjective | src/domain/services/greeting_service.rs:11 | Equal names give equal greetings, and the greeting determines the name. |
| GreetingServices.GreetWorld | src/domain/services/greeting_service.rs:19-25 | "World" is greeted as "Hello, World!". |
| GreetingUseCases.Execute | src/application/use_cases/greeting_use_case.rs:21-29 | Succeeds if and only if `Name::new` succeeds. On success the message is "Hello, " + request name + "!". On failure the error is `InvalidName` of exactly the error `Name::new` returned. |
| GreetingUseCases.ExecuteOutcome | src/application/use_cases/greeting_use_case.rs:25 | The outcome in terms of the raw input alone: a valid name succeeds, a blank one is `InvalidName(Empty)`, and a non-blank one over 100 bytes is `InvalidName(TooLong)`. |
| GreetingUseCases.ExecuteDependsOnlyOnName | src/application/use_cases/greeting_use_case.rs:12-29 | Two requests with the same name give the same result, on any use-case instance. |
| GreetingUseCases.InvalidNameMessage | src/application/use_cases/greeting_use_case.rs:6-10 | The message is "Invalid name: " followed by the cause's message, unchanged. Distinct causes give distinct messages. |
| GreetingUseCases.ResponseBounds | src/application/use_cases/greeting_use_case.rs:25-28 | A successful response is at most 108 bytes. The request name sits verbatim between the fixed prefix and suffix. |
| GreetingUseCases.EmptyRequestFails | src/application/use_cases/greeting_use_case.rs:49-60 | An empty request name fails with "Invalid name: Name cannot be empty". |
| GreetingUseCases.ExecuteWorld | src/application/use_cases/greeting_use_case.rs:36-47 | "World" gives the response "Hello, World!". |
| GreetingUseCases.ExecuteTest | src/interfaces/api/graphql.rs:60 | "Test", the query layer's example, gives "Hello, Test!". |
| GreetingUseCases.ExecuteBlank | src/domain/value_objects/name.rs:16-18 | Three spaces fail as `InvalidName(Empty)`. |
| GreetingUseCases.ExecuteHundredLetters | src/domain/value_objects/name.rs:20-24 | 100 `a`s give "Hello, " + 100 `a`s + "!". |
| GreetingUseCases.ExecuteHundredAndOneLetters | src/domain/value_objects/name.rs:55-59 | 101 `a`s fail as `InvalidName(TooLong)`. |
| GreetingUseCases.TooLongMessage | src/application/use_cases/greeting_use_case.rs:8 | The over-long case reports "Invalid name: Name is too long (maximum 100 characters)". |

## Left out

- src/main.rs: tracing setup, the async runtime, the TCP bind and the HTTP server. These are process bootstrap and I/O.
- src/interfaces/api/graphql.rs: HTTP routing, the playground page and the GraphQL HTTP handler. These are framework and network glue.
- src/infrastructure/graphql/schema.rs: the GraphQL schema wiring. The `hello` resolver only forwards to `execute` and turns an error into its display string. That string is `GreetingUseCaseError.Message`, so the schema test's check that the empty-name error contains "Name cannot be empty" follows from `GreetingUseCases.InvalidNameMessage` and `GreetingUseCases.EmptyRequestFails`. The engine's error envelope is not part of this model.
- The serde derives on the request and response records. These are foreign serialisation code, so the records are plain datatypes.
- The `Debug`, `Clone` and `Error` derives. Of these, only the display strings of `thiserror` matter, and they are modelled by the `Message` functions.
- Text.IsWhitespace: its table is Unicode's White_Space property as Rust's `char::is_whitespace` uses it, written from the Unicode standard. The general properties hold whatever the table contains.
