/**
 * How `Matcher.appendReplacement` reads its replacement argument: a
 * backslash makes the next character literal, `$` followed by a group number
 * (or `{name}`) inserts a captured group, and anything else is copied. The
 * end-of-line filter passes the bold note followed by the raw step name as
 * that argument, so a name holding `\` or `$` is not copied literally. This
 * module models that behaviour as written, shows where it departs from
 * literal insertion, and proves that quoting the replacement first
 * (`Matcher.quoteReplacement`) gives the literal behaviour the rest of the
 * model uses.
 */
module Replacement {
  import opened Wrappers
  import opened LiteralMatch
  import opened CountGreetings

  /** The exceptions `appendReplacement` throws on a malformed replacement. */
  datatype ReplacementError = IllegalArgument | IndexOutOfBounds

  /** `p` followed by a successful expansion; an error is passed on. */
  function Prepend(p: string, r: Result<string, ReplacementError>): Result<string, ReplacementError>
  {
    match r
    case Ok(s) => Ok(p + s)
    case Err(e) => Err(e)
  }

  /**
   * After `$0`, further `0` digits still form group number 0 (the pattern of
   * a quoted name has no capturing group, so a larger number is never taken).
   */
  function DropZeros(s: string): (r: string)
    ensures |r| <= |s| && r == s[|s| - |r|..]
    ensures r == [] || r[0] != '0'
  {
    if s != [] && s[0] == '0' then DropZeros(s[1..]) else s
  }

  /**
   * The text `appendReplacement` appends for one match whose group 0 is
   * `group`, or the exception it throws. The pattern has no capturing group:
   * `$1`..`$9` name a group that does not exist, and `${...}` a named group
   * that does not exist.
   */
  function Expand(rep: string, group: string): Result<string, ReplacementError>
    decreases |rep|
  {
    if rep == [] then Ok([])
    else if rep[0] == '\\' then
      if |rep| == 1 then Err(IllegalArgument)
      else Prepend([rep[1]], Expand(rep[2..], group))
    else if rep[0] == '$' then
      if |rep| == 1 then Err(IllegalArgument)
      else if rep[1] == '0' then Prepend(group, Expand(DropZeros(rep[2..]), group))
      else if '1' <= rep[1] <= '9' then Err(IndexOutOfBounds)
      else Err(IllegalArgument)
    else Prepend([rep[0]], Expand(rep[1..], group))
  }

  /** A text without the two characters `appendReplacement` treats specially. */
  predicate Plain(s: string)
  {
    forall i :: 0 <= i < |s| ==> s[i] != '\\' && s[i] != '$'
  }

  /** The serialised bold note never holds `\` or `$` (it is escape codes around Base64). */
  ghost predicate NotePlain(note: nat -> string)
  {
    forall n: nat :: Plain(note(n))
  }

  /** A plain prefix is copied unchanged and the rest is read as usual. */
  lemma {:induction false} ExpandPlainPrefix(p: string, s: string, group: string)
    requires Plain(p)
    ensures Expand(p + s, group) == Prepend(p, Expand(s, group))
    decreases |p|
  {
    if p == [] {
      assert p + s == s;
      match Expand(s, group)
      case Ok(t) => assert [] + t == t;
      case Err(_) =>
    } else {
      assert (p + s)[1..] == p[1..] + s;
      ExpandPlainPrefix(p[1..], s, group);
      match Expand(s, group)
      case Ok(t) => assert [p[0]] + (p[1..] + t) == p + t;
      case Err(_) =>
    }
  }

  /** `Matcher.quoteReplacement`: a backslash before every `\` and `$`. */
  function Quote(s: string): (q: string)
    ensures |s| <= |q|
  {
    if s == [] then []
    else (if s[0] == '\\' || s[0] == '$' then ['\\', s[0]] else [s[0]]) + Quote(s[1..])
  }

  /** Quoting round-trips: `appendReplacement` turns a quoted text back into the text itself. */
  lemma {:induction false} ExpandQuote(s: string, group: string)
    ensures Expand(Quote(s), group) == Ok(s)
    decreases |s|
  {
    if s != [] {
      ExpandQuote(s[1..], group);
      var q := Quote(s);
      if s[0] == '\\' || s[0] == '$' {
        assert q[0] == '\\' && q[1] == s[0] && q[2..] == Quote(s[1..]);
      } else {
        assert q[0] == s[0] && q[1..] == Quote(s[1..]);
      }
      assert [s[0]] + s[1..] == s;
    }
  }

  /** Quoting leaves a text without `\` or `$` as it is. */
  lemma {:induction false} QuotePlain(s: string)
    requires Plain(s)
    ensures Quote(s) == s
    decreases |s|
  {
    if s != [] {
      QuotePlain(s[1..]);
      assert [s[0]] + s[1..] == s;
    }
  }

  /** A plain replacement is copied unchanged. */
  lemma ExpandPlain(s: string, group: string)
    requires Plain(s)
    ensures Expand(s, group) == Ok(s)
  {
    QuotePlain(s);
    ExpandQuote(s, group);
  }

  /**
   * The end-of-line loop as written: every match appends the text before it
   * and the expansion of `rep`; the first exception ends the line with
   * nothing written.
   */
  function ScanAsWrittenFrom(line: string, name: string, rep: string, search: nat, last: nat)
    : Result<(string, nat), ReplacementError>
    requires last <= search <= |line| + 1 && last <= |line|
    decreases |line| + 1 - search
  {
    match Find(line, name, search)
    case None => Ok((line[last..], 0))
    case Some(j) =>
      match Expand(rep, line[j..j + |name|])
      case Err(e) => Err(e)
      case Ok(x) =>
        match ScanAsWrittenFrom(line, name, rep, NextSearch(j, name), j + |name|)
        case Err(e) => Err(e)
        case Ok(rest) => Ok((line[last..j] + x + rest.0, rest.1 + 1))
  }

  /** The line and count the filter produces as written, with `Boldface.encodeTo(name)` passed unquoted. */
  function EolAsWritten(line: string, name: string, note: nat -> string): Result<(string, nat), ReplacementError>
  {
    ScanAsWrittenFrom(line, name, EncodeTo(note, name), 0, 0)
  }

  /** Passing a quoted replacement makes the loop as written insert the text literally. */
  lemma {:induction false} AsWrittenQuoted(line: string, name: string, rep: string, search: nat, last: nat)
    requires last <= search <= |line| + 1 && last <= |line|
    ensures ScanAsWrittenFrom(line, name, Quote(rep), search, last) == Ok(ScanFrom(line, name, rep, search, last))
    decreases |line| + 1 - search
  {
    match Find(line, name, search)
    case None =>
    case Some(j) =>
      ExpandQuote(rep, line[j..j + |name|]);
      AsWrittenQuoted(line, name, rep, NextSearch(j, name), j + |name|);
  }

  /** A plain replacement, too, is inserted literally by the loop as written. */
  lemma AsWrittenPlain(line: string, name: string, rep: string, search: nat, last: nat)
    requires last <= search <= |line| + 1 && last <= |line|
    requires Plain(rep)
    ensures ScanAsWrittenFrom(line, name, rep, search, last) == Ok(ScanFrom(line, name, rep, search, last))
  {
    QuotePlain(rep);
    AsWrittenQuoted(line, name, rep, search, last);
  }

  /** The filter as written agrees with literal insertion whenever the name holds no `\` or `$`. */
  lemma EolAsWrittenPlainName(line: string, name: string, note: nat -> string)
    requires NotePlain(note) && Plain(name)
    ensures EolAsWritten(line, name, note) == Ok(Scan(line, name, EncodeTo(note, name)))
  {
    var rep := EncodeTo(note, name);
    assert Plain(note(|name|));
    assert Plain(rep) by {
      forall i | 0 <= i < |rep| ensures rep[i] != '\\' && rep[i] != '$' {
        if i >= |note(|name|)| {
          assert rep[i] == name[i - |note(|name|)|];
        }
      }
    }
    AsWrittenPlain(line, name, rep, 0, 0);
  }

  /**
   * A backslash in the name is read as an escape: for the name `a\b` on a
   * line `a\b`, the filter writes the note followed by `ab`, so the
   * backslash is lost from the console output.
   */
  lemma BackslashNameLosesText(note: nat -> string)
    requires NotePlain(note)
    ensures EolAsWritten("a\\b", "a\\b", note) == Ok((note(3) + "ab", 1))
    ensures Scan("a\\b", "a\\b", EncodeTo(note, "a\\b")) == (note(3) + "a\\b", 1)
  {
    var line := "a\\b";
    assert Occurs(line, line, 0);
    assert Find(line, line, 0) == Some(0);
    assert Find(line, line, 3) == None;
    assert Plain(note(3));
    assert |line| == 3 && line[0..3] == line;
    ExpandPlainPrefix(note(3), line, line);
    assert Expand([], line) == Ok([]);
    var tail := "\\b";
    assert tail[0] == '\\' && |tail| == 2 && [tail[1]] == "b" && tail[2..] == [];
    assert Expand(tail, line) == Prepend("b", Expand([], line));
    assert "b" + [] == "b";
    assert Expand(tail, line) == Ok("b");
    assert line[0] == 'a' && line[1..] == tail;
    assert Expand(line, line) == Prepend("a", Expand(tail, line));
    assert "a" + "b" == "ab";
    assert Expand(line, line) == Ok("ab");
    assert Expand(EncodeTo(note, line), line) == Ok(note(3) + "ab");
    assert ScanAsWrittenFrom(line, line, EncodeTo(note, line), 3, 3) == Ok(([], 0));
    assert line[0..0] + (note(3) + "ab") + [] == note(3) + "ab";
    assert ScanFrom(line, line, EncodeTo(note, line), 3, 3) == ([], 0);
    assert line[0..0] + EncodeTo(note, line) + [] == note(3) + line;
  }

  /** A name `$` makes every line holding it throw `IllegalArgumentException`. */
  lemma DollarNameThrows(note: nat -> string)
    requires NotePlain(note)
    ensures EolAsWritten("$", "$", note) == Err(IllegalArgument)
  {
    assert Occurs("$", "$", 0);
    assert Find("$", "$", 0) == Some(0);
    assert Plain(note(1));
    ExpandPlainPrefix(note(1), "$", "$");
  }

  /** A name `$1` makes every line holding it throw `IndexOutOfBoundsException`. */
  lemma GroupNameThrows(note: nat -> string)
    requires NotePlain(note)
    ensures EolAsWritten("$1", "$1", note) == Err(IndexOutOfBounds)
  {
    assert Occurs("$1", "$1", 0);
    assert Find("$1", "$1", 0) == Some(0);
    assert Plain(note(2));
    ExpandPlainPrefix(note(2), "$1", "$1");
  }
}
