/**
 * The `HelloWorldBuilder` build step: it prints one greeting for its name,
 * in English or French according to a flag held by its descriptor, and the
 * descriptor checks names typed into the configuration form.
 */
module HelloWorld {
  import Wrappers

  const English: string := "Hello, "
  const French: string := "Bonjour, "

  /** The line `perform` prints for `name`. */
  function Greeting(name: string, useFrench: bool): string
  {
    (if useFrench then French else English) + name + "!"
  }

  /** Reads a printed greeting back: the name it greets and whether it is French. */
  function ParseGreeting(line: string): Wrappers.Option<(string, bool)>
  {
    if |line| >= |French| + 1 && line[..|French|] == French && line[|line| - 1] == '!' then
      Wrappers.Some((line[|French|..|line| - 1], true))
    else if |line| >= |English| + 1 && line[..|English|] == English && line[|line| - 1] == '!' then
      Wrappers.Some((line[|English|..|line| - 1], false))
    else Wrappers.None
  }

  /** A greeting determines the name and the language it was printed for. */
  lemma GreetingRoundTrip(name: string, useFrench: bool)
    ensures ParseGreeting(Greeting(name, useFrench)) == Wrappers.Some((name, useFrench))
  {
    var g := Greeting(name, useFrench);
    var prefix := if useFrench then French else English;
    assert g == prefix + name + "!";
    assert g[..|prefix|] == prefix;
    assert g[|prefix|..|g| - 1] == name;
    if !useFrench && |g| >= |French| {
      assert g[..|French|][0] == 'H' != French[0];
    }
  }

  /** Different names or languages never print the same line. */
  lemma GreetingInjective(a: string, fa: bool, b: string, fb: bool)
    requires Greeting(a, fa) == Greeting(b, fb)
    ensures a == b && fa == fb
  {
    GreetingRoundTrip(a, fa);
    GreetingRoundTrip(b, fb);
  }

  /** The greetings the smoke test looks for in the build log. */
  lemma GreetingExamples()
    ensures Greeting("Jesse", false) == "Hello, Jesse!"
    ensures Greeting("Jesse", true) == "Bonjour, Jesse!"
  {
  }

  /** `FormValidation`: the verdict shown beside a form field. */
  datatype FormValidation = Ok | Warning(message: string) | Error(message: string)

  /** How bad a verdict is: `Ok` below `Warning` below `Error`. */
  function Severity(v: FormValidation): nat
  {
    match v
    case Ok => 0
    case Warning(_) => 1
    case Error(_) => 2
  }

  /** `doCheckName`: an empty name is an error, one of one to three characters a warning, anything longer fine. */
  function CheckName(value: string): (v: FormValidation)
    ensures v.Error? <==> |value| == 0
    ensures v.Warning? <==> 0 < |value| < 4
    ensures v.Ok? <==> 4 <= |value|
    ensures v.Error? ==> v.message == "Please set a name"
    ensures v.Warning? ==> v.message == "Isn't the name too short?"
  {
    if |value| == 0 then Error("Please set a name")
    else if |value| < 4 then Warning("Isn't the name too short?")
    else Ok
  }

  /** Lengthening a name never makes its verdict worse, and names of equal length get the same verdict. */
  lemma CheckNameMonotone(a: string, b: string)
    ensures |a| <= |b| ==> Severity(CheckName(b)) <= Severity(CheckName(a))
    ensures |a| == |b| ==> CheckName(a) == CheckName(b)
  {
  }

  /** The build log: the lines printed to it so far. */
  class Log {
    var lines: seq<string>

    constructor ()
      ensures lines == []
    {
      lines := [];
    }
  }

  /** `DescriptorImpl`: the global settings of the step, here the `useFrench` flag. */
  class DescriptorImpl {
    var useFrench: bool

    /** `load()` restores the saved flag; `saved` stands for what was saved. */
    constructor (saved: bool)
      ensures useFrench == saved
    {
      useFrench := saved;
    }

    function GetUseFrench(): bool
      reads this
    {
      useFrench
    }

    /** `configure`: the flag takes the value submitted in the global configuration form. */
    method Configure(formUseFrench: bool)
      modifies this
      ensures GetUseFrench() == formUseFrench
    {
      useFrench := formUseFrench;
    }
  }

  class HelloWorldBuilder {
    const name: string
    const descriptor: DescriptorImpl

    constructor (name: string, descriptor: DescriptorImpl)
      ensures this.name == name && this.descriptor == descriptor
    {
      this.name := name;
      this.descriptor := descriptor;
    }

    /** `perform`: prints exactly one greeting, in the language the descriptor selects, and succeeds. */
    method Perform(log: Log) returns (ok: bool)
      modifies log
      ensures ok
      ensures log.lines == old(log.lines) + [Greeting(name, descriptor.GetUseFrench())]
    {
      log.lines := log.lines + [Greeting(name, descriptor.GetUseFrench())];
      ok := true;
    }
  }
}
