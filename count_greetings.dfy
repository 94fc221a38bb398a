/**
 * The `countGreetings` pipeline step: while its body runs, every console
 * line passes through a filter that marks each occurrence of the step's name
 * in bold and counts it; when the body ends, the step's result is the count,
 * or the body's failure passed on unchanged.
 */
module CountGreetings {
  import opened Wrappers
  import opened LiteralMatch

  /**
   * `Boldface.encodeTo`: the console note that renders the next `|text|`
   * characters in bold, followed by the text itself. The note's serialised
   * form is foreign code, so `note(len)` stands for the encoding of a note
   * covering `len` characters.
   */
  function EncodeTo(note: nat -> string, text: string): string
  {
    note(|text|) + text
  }

  /**
   * The line written downstream is the input with the bold note inserted
   * immediately before each match; deleting the notes gives the input back.
   */
  lemma NotesInserted(line: string, name: string, note: nat -> string)
    ensures Scan(line, name, EncodeTo(note, name)).0 == InsertBefore(line, name, note(|name|), 0, 0)
    ensures InsertBefore(line, name, [], 0, 0) == line
  {
    ScanInserts(line, name, note(|name|));
  }

  /** The number of greetings found in a sequence of console lines, in order. */
  function TotalCount(lines: seq<string>, name: string): nat
    decreases |lines|
  {
    if lines == [] then 0
    else TotalCount(lines[..|lines| - 1], name) + Count(lines[|lines| - 1], name)
  }

  /** Counting is additive over consecutive stretches of output. */
  lemma {:induction false} TotalCountAppend(a: seq<string>, b: seq<string>, name: string)
    ensures TotalCount(a + b, name) == TotalCount(a, name) + TotalCount(b, name)
    decreases |b|
  {
    if b != [] {
      var b' := b[..|b| - 1];
      assert (a + b)[..|a + b| - 1] == a + b';
      TotalCountAppend(a, b', name);
    } else {
      assert a + b == a;
    }
  }

  /** How the body block ended: `onSuccess` (its own result is not used) or `onFailure(cause)`. */
  datatype Completion<E> = Completed | Failed(cause: E)

  /** What the step reports to its caller. */
  datatype Outcome<E> = Success(greetings: int) | Failure(cause: E)

  /** The running step (`CountGreetingsStep.Execution`): its name and the greetings counted so far. */
  class Execution {
    const name: string
    var count: nat
    /** Every line the filter has seen for this execution, in order. */
    ghost var lines: seq<string>

    ghost predicate Valid()
      reads this
    {
      count == TotalCount(lines, name)
    }

    constructor (name: string)
      ensures Valid() && this.name == name
      ensures count == 0 && lines == []
    {
      this.name := name;
      count := 0;
      lines := [];
    }

    /**
     * `Tallier`: on success the step's value is the number of greetings in
     * all lines seen; on failure the cause is passed on and no count is given.
     */
    function Tally<E>(c: Completion<E>): (o: Outcome<E>)
      reads this
      requires Valid()
      ensures o.Success? <==> c.Completed?
      ensures c.Completed? ==> o.greetings == TotalCount(lines, name)
      ensures c.Failed? ==> o.cause == c.cause
    {
      match c
      case Completed => Success(count)
      case Failed(t) => Failure(t)
    }
  }

  /** The downstream console stream (`base`): the lines written to it so far. */
  class Sink {
    var written: seq<string>

    constructor ()
      ensures written == []
    {
      written := [];
    }
  }

  /** The stream `LogFilter.decorateLogger` returns: it scans each line for the execution's name. */
  class LineFilter {
    const exec: Execution
    const base: Sink
    const note: nat -> string

    constructor (exec: Execution, base: Sink, note: nat -> string)
      ensures this.exec == exec && this.base == base && this.note == note
    {
      this.exec := exec;
      this.base := base;
      this.note := note;
    }

    /**
     * The `while (m.find())` loop of one end of line: every literal match of
     * the name is replaced by the bold note followed by the name, and the
     * count grows by one per match.
     */
    method Mark(line: string) returns (out: string)
      modifies exec
      ensures out == Scan(line, exec.name, EncodeTo(note, exec.name)).0
      ensures exec.count == old(exec.count) + Scan(line, exec.name, EncodeTo(note, exec.name)).1
      ensures exec.lines == old(exec.lines)
    {
      var name := exec.name;
      var rep := EncodeTo(note, name);
      out := [];
      var last: nat := 0;
      var search: nat := 0;
      var m := Find(line, name, search);
      ghost var target := ScanFrom(line, name, rep, 0, 0);
      while m.Some?
        invariant last <= search <= |line| + 1 && last <= |line|
        invariant m == Find(line, name, search)
        invariant target.0 == out + ScanFrom(line, name, rep, search, last).0
        invariant old(exec.count) + target.1 == exec.count + ScanFrom(line, name, rep, search, last).1
        invariant exec.lines == old(exec.lines)
        decreases |line| + 1 - search
      {
        var j := m.value;
        ScanStep(line, name, rep, search, last, out, j);
        out := out + (line[last..j] + rep);
        exec.count := exec.count + 1;
        last := j + |name|;
        search := NextSearch(j, name);
        m := Find(line, name, search);
      }
      out := out + line[last..];
    }

    /**
     * One end of line: the line is rewritten and counted by `Mark`, and the
     * rewritten line is written downstream.
     */
    method Eol(line: string)
      requires exec.Valid()
      modifies exec, base
      ensures exec.Valid() && exec.lines == old(exec.lines) + [line]
      ensures exec.count == old(exec.count) + Count(line, exec.name)
      ensures base.written == old(base.written) + [Scan(line, exec.name, EncodeTo(note, exec.name)).0]
    {
      var out := Mark(line);
      ScanCounts(line, exec.name, EncodeTo(note, exec.name));
      base.written := base.written + [out];
      exec.lines := exec.lines + [line];
      assert exec.lines[..|exec.lines| - 1] == old(exec.lines);
    }
  }

  lemma HelloJesse()
    ensures Count("Hello, Jesse!", "Jesse") == 1
  {
    var line := "Hello, Jesse!";
    assert line[0..7] == "Hello, ";
    FindSkip(line, "Jesse", 0, 7);
    assert Occurs(line, "Jesse", 7);
    assert Matches(line, "Jesse", 12) == [];
  }

  lemma HowAreYouJesse()
    ensures Count("Jesse! How are you, Jesse?", "Jesse") == 2
  {
    var line := "Jesse! How are you, Jesse?";
    assert line[0..5] == "Jesse";
    assert Find(line, "Jesse", 0) == Some(0);
    SecondJesse();
    assert Find(line, "Jesse", 25) == None;
    assert Matches(line, "Jesse", 25) == [];
    assert Matches(line, "Jesse", 5) == [20];
  }

  /** Helper of `HowAreYouJesse`: after the first match, the search finds the name again at index 20. */
  lemma SecondJesse()
    ensures Find("Jesse! How are you, Jesse?", "Jesse", 5) == Some(20)
  {
    var line := "Jesse! How are you, Jesse?";
    assert line[5..20] == "! How are you, ";
    FindSkip(line, "Jesse", 5, 20);
    assert line[20..25] == "Jesse";
  }

  /** Counting the two lines `Hello, Jesse!` and `Jesse! How are you, Jesse?` for the name `Jesse` gives three. */
  lemma GreetedThreeTimes()
    ensures TotalCount(["Hello, Jesse!", "Jesse! How are you, Jesse?"], "Jesse") == 3
  {
    HelloJesse();
    HowAreYouJesse();
    var lines := ["Hello, Jesse!", "Jesse! How are you, Jesse?"];
    assert lines[..1] == ["Hello, Jesse!"];
    assert lines[..1][..0] == [];
  }
}
