# Greeting steps of the `demo` Jenkins plugin, in Dafny

This project models the two build steps of the `demo` plugin and proves
properties of the model.

- **`countGreetings`** (`CountGreetingsStep`) runs a block body. Every console
  line the body produces passes through a filter. The filter finds each literal
  occurrence of the step's name. For each one, it inserts a bold console note
  before the occurrence and adds one to the execution's count. When the body
  ends, the step returns the count, or passes on the body's failure unchanged.
- **`HelloWorldBuilder`** prints one greeting, `Hello, <name>!` or
  `Bonjour, <name>!`, chosen by a `useFrench` flag held by its descriptor. The
  descriptor also checks names typed into the configuration form.

Files:

- `wrappers.dfy`: `Option` and `Result`.
- `literal_match.dfy` (module `LiteralMatch`): matching a quoted pattern.
  - `Find` is one `Matcher.find()`; `Matches` lists the indices a
    `while (m.find())` loop visits.
  - `ScanFrom`/`Scan` give the line `appendReplacement`/`appendTail` build
    when every match is replaced literally by a fixed text, together with the
    number of matches.
  - It also holds the independent characterisations these are proved against:
    `Greedy` (leftmost non-overlapping occurrences) and `InsertBefore` (the line
    with a text inserted before each match).
- `count_greetings.dfy` (module `CountGreetings`): the step's running state.
  - `Execution` holds the name and the count. `Tally` is the completion
    callback.
  - `LineFilter` is the console filter. `Mark` is its `while (m.find())` loop
    and `Eol` is one end of line.
  - The note text is a parameter `note: nat -> string`: `note(n)` is the
    encoded `Boldface` note for a text of length `n`.
- `replacement.dfy` (module `Replacement`): how `appendReplacement` reads its
  replacement argument (`\` escapes, `$n` group references). It models the
  filter as written, where the name is passed unquoted (see "## Findings").
- `hello_world.dfy` (module `HelloWorld`): the greeting, the name check, the
  descriptor's flag and `perform`.

Two facts about the code shape the model:

- `useFrench` is a field of the shared `DescriptorImpl`: `configure` sets it
  and `perform` reads it through `getUseFrench`.
- The code accepts any name, the empty one included. An empty name gives an
  empty match at every index, and the search moves one character on after
  each empty match. `LiteralMatch.EmptyNameCount` proves a line of length n
  then counts n + 1.

## Model

| member | source | states |
|---|---|---|
| LiteralMatch.NextSearch | src/main/java/demo/CountGreetingsStep.java:111 | the next `find()` resumes at or after the end of the match, and strictly after its start, so an empty match still makes progress |
| LiteralMatch.FindSpec | src/main/java/demo/CountGreetingsStep.java:106-111 | `find()` returns the leftmost literal occurrence at or after the search index, and returns nothing only when no occurrence starts there or later |
| LiteralMatch.MatchesGreedy | src/main/java/demo/CountGreetingsStep.java:109-115 | the matches the loop visits are occurrences of the name, ascend without overlapping, and every occurrence skipped overlaps one visited |
| LiteralMatch.GreedyIsMatches | src/main/java/demo/CountGreetingsStep.java:109-115 | any set of leftmost non-overlapping occurrences is exactly the set the loop visits |
| LiteralMatch.CountIsGreedy | src/main/java/demo/CountGreetingsStep.java:109-115 | the count added for a line is the size of any leftmost non-overlapping set of occurrences of the name |
| LiteralMatch.ScanCounts | src/main/java/demo/CountGreetingsStep.java:111-113 | the number of replacements made equals the number of matches counted, whatever the replacement text |
| LiteralMatch.ScanInserts | src/main/java/demo/CountGreetingsStep.java:111-117 | replacing each match by a text followed by the name gives the line with that text inserted before each match; inserting nothing gives the line back |
| LiteralMatch.EraseAnnotations | src/main/java/demo/CountGreetingsStep.java:111-117 | replacing every match by the name itself leaves the line unchanged |
| LiteralMatch.NoOccurrence | src/main/java/demo/CountGreetingsStep.java:111-117 | the count for a line is 0 if and only if the name does not occur in it, and then the line is written unchanged |
| LiteralMatch.MatchesBound | src/main/java/demo/CountGreetingsStep.java:109-115 | one line never counts more than its length plus one |
| LiteralMatch.EmptyNameCount | src/main/java/demo/CountGreetingsStep.java:106-115 | an empty name matches at every index of the line, including its end |
| LiteralMatch.LiteralDot | src/main/java/demo/CountGreetingsStep.java:106 | matching is literal: `a.b` does not match `axb` and matches `a.b` once |
| CountGreetings.NotesInserted | src/main/java/demo/CountGreetingsStep.java:111-117 | the line written is the input with the bold note for the name's length inserted before each match; deleting the notes gives the input back |
| CountGreetings.TotalCountAppend | src/main/java/demo/CountGreetingsStep.java:71-113 | the count over consecutive stretches of output is the sum of their counts |
| CountGreetings.Execution.constructor | src/main/java/demo/CountGreetingsStep.java:68-76 | a new execution has counted nothing and seen no line |
| CountGreetings.Execution.Tally | src/main/java/demo/CountGreetingsStep.java:148-164 | on success the step's value is the number of greetings in all lines seen; on failure the same cause is passed on and there is no count |
| CountGreetings.LineFilter.constructor | src/main/java/demo/CountGreetingsStep.java:97-104 | the filter is bound to its execution and to the downstream stream |
| CountGreetings.LineFilter.Mark | src/main/java/demo/CountGreetingsStep.java:109-116 | the loop builds the rewritten line and adds to the count one per match, leaving the lines seen unchanged |
| CountGreetings.LineFilter.Eol | src/main/java/demo/CountGreetingsStep.java:107-118 | each end of line adds the line's count, so the count never decreases and stays the total over all lines seen; exactly one rewritten line is written downstream, after those already written |
| CountGreetings.HelloJesse | src/test/java/demo/CountGreetingsStepTest.java:48 | `Hello, Jesse!` holds one `Jesse` |
| CountGreetings.HowAreYouJesse | src/test/java/demo/CountGreetingsStepTest.java:48 | `Jesse! How are you, Jesse?` holds two |
| CountGreetings.GreetedThreeTimes | src/test/java/demo/CountGreetingsStepTest.java:48-67 | the two lines the body prints count three greetings in total |
| Replacement.ExpandPlain | src/main/java/demo/CountGreetingsStep.java:112 | a replacement without `\` or `$` is appended unchanged |
| Replacement.ExpandQuote | src/main/java/demo/CountGreetingsStep.java:112 | a quoted replacement expands back to the original text, so quoting and expanding round-trip |
| Replacement.AsWrittenQuoted | src/main/java/demo/CountGreetingsStep.java:109-116 | with the replacement quoted, the loop as written produces exactly the literal rewrite and count that `Eol` is proved against |
| Replacement.AsWrittenPlain | src/main/java/demo/CountGreetingsStep.java:109-116 | with a replacement free of `\` and `$`, the loop as written equals the literal rewrite |
| Replacement.EolAsWrittenPlainName | src/main/java/demo/CountGreetingsStep.java:109-116 | for a name without `\` or `$`, the filter as written agrees with the literal model |
| Replacement.BackslashNameLosesText | src/main/java/demo/CountGreetingsStep.java:112 | the name `a\b` on the line `a\b` is written as the note followed by `ab`, not as the name |
| Replacement.DollarNameThrows | src/main/java/demo/CountGreetingsStep.java:112 | the name `$` makes a line holding it raise `IllegalArgumentException` |
| Replacement.GroupNameThrows | src/main/java/demo/CountGreetingsStep.java:112 | the name `$1` makes a line holding it raise `IndexOutOfBoundsException` |
| HelloWorld.GreetingRoundTrip | src/main/java/demo/HelloWorldBuilder.java:33-37 | the printed line can be read back to the exact name and language it was printed for |
| HelloWorld.GreetingInjective | src/main/java/demo/HelloWorldBuilder.java:33-37 | different names or languages never print the same line |
| HelloWorld.GreetingExamples | src/test/java/demo/HelloWorldBuilderTest.java:48-50 | the name `Jesse` is greeted as `Hello, Jesse!`, or `Bonjour, Jesse!` in French |
| HelloWorld.CheckName | src/main/java/demo/HelloWorldBuilder.java:55-62 | an empty name is an error saying "Please set a name"; a name of 1 to 3 characters is a warning saying "Isn't the name too short?"; any longer name is fine; the three cases partition all names by length |
| HelloWorld.CheckNameMonotone | src/main/java/demo/HelloWorldBuilder.java:57-61 | a longer name never gets a worse verdict, and names of the same length get the same verdict |
| HelloWorld.DescriptorImpl.constructor | src/main/java/demo/HelloWorldBuilder.java:51-53 | the descriptor starts with the flag that was saved |
| HelloWorld.DescriptorImpl.Configure | src/main/java/demo/HelloWorldBuilder.java:73-81 | after `configure`, `getUseFrench` returns the submitted value |
| HelloWorld.HelloWorldBuilder.constructor | src/main/java/demo/HelloWorldBuilder.java:22-25 | the builder keeps the name it was given |
| HelloWorld.HelloWorldBuilder.Perform | src/main/java/demo/HelloWorldBuilder.java:32-39 | `perform` prints exactly one line, the greeting in the language the descriptor selects, and returns true |

## Left out

- Jenkins pipeline plumbing is not modelled: the body invoker, merging console
  log filters, `start`/`stop`, and the step descriptors. These are host APIs.
- `getContext().saveState()` is host checkpointing and is treated as doing
  nothing.
- `ConsoleNote.encode()` and the HTML rendering by `Boldface.annotate` are
  foreign code. The encoded note is the parameter `note`. The argument that
  it never holds `\` or `$` rests on its escape-code-and-Base64 form, and is
  the `NotePlain` precondition of the `Replacement` lemmas.
- HelloWorld.CheckName, CountGreetings.EncodeTo, LiteralMatch.EmptyNameCount:
  lengths and indices are counted in characters (Unicode scalar values), not
  in Java's UTF-16 code units. A name or line holding characters outside the
  Basic Multilingual Plane therefore gets a different `doCheckName` verdict,
  a different note length, or a different empty-name count than Java gives.
  For example, two emoji make a Java length of 4 (ok), but a length of 2
  (warning) here.
- UTF-8 decoding and encoding, and the line buffering of
  `LineTransformationOutputStream`, are not modelled. Lines are character
  sequences delivered one at a time.
- CountGreetings.LineFilter.Eol: the count is an unbounded `nat`. Java's
  32-bit `int` would wrap past 2^31 - 1 greetings; that wrap-around is not
  modelled.
- CountGreetings.LineFilter.Eol: this is the corrected behaviour, where each
  match is written as the note followed by the name verbatim. The code as
  written differs only for names holding `\` or `$`. That case is modelled in
  `Replacement.EolAsWritten`.
- Replacement.EolAsWritten: the counts already added before an exception
  interrupts a line are not kept in the error result. The first match already
  raises, so no count is added.
- `Matcher.appendReplacement` is part of the Java library, and its source is
  not part of this model. `Replacement.Expand` models how it reads the
  replacement argument, following its documented behaviour.
- `DescriptorImpl` persistence (`load`/`save`), `isApplicable`,
  `getDisplayName`, and binding the form's JSON to the flag are not
  modelled. The saved flag and the submitted flag are parameters. The value
  `super.configure` returns is not modelled.
- Serialisation (`Serializable`, `serialVersionUID`) is not modelled.
- Restart and semaphore orchestration in the tests is not modelled, and
  neither is the UI round trip.

## Findings

| source | as written | input that shows it | evidently intended | confidence | as-written member | corrected member |
|---|---|---|---|---|---|---|
| src/main/java/demo/CountGreetingsStep.java:112 | `Boldface.encodeTo(exec.name)` is passed unquoted as the `appendReplacement` argument, so a `\` or `$` in the name is read as replacement syntax | name `a\b` on the line `a\b` writes the note followed by `ab`; name `$` (or `$1`) makes every line holding it throw | each match is written as the note followed by the name verbatim, e.g. by quoting it with `Matcher.quoteReplacement` | not executed | Replacement.BackslashNameLosesText | Replacement.AsWrittenQuoted |
