/**
 * `utils_rc`: the configuration file grammar. Each line is a `key=value`
 * token or a `key value` pair of tokens; blank lines are skipped; any
 * other line is an error naming the file and the line number.
 */
module UtilsRc {

  import opened Common

  /** A line as `shlex.split` left it: its tokens, or None when it raised. */
  type Line = Option<seq<string>>

  datatype RcError =
    | BothGiven                               // both a path and an iterable
    | TokenizeError(lineno: nat)              // `shlex.split` raised on that line
    | InvalidLine(path: string, lineno: nat)  // "<path>:<lineno>: Invalid line"

  datatype Result = Conf(conf: map<string, string>) | Failed(error: RcError)

  /** What a line of tokens contributes. */
  datatype Kind = Skip | Entry(name: string, value: string) | Invalid

  /**
   * A line with no tokens is skipped; a single token with "=" splits at
   * its first "="; exactly two tokens are a name and a value; anything
   * else is invalid.
   */
  function Classify(tokens: seq<string>): (k: Kind)
    ensures k == Skip <==> tokens == []
    ensures k == Invalid <==> tokens != [] && |tokens| != 2 && !(|tokens| == 1 && '=' in tokens[0])
    ensures k.Entry? && |tokens| == 2 ==> tokens == [k.name, k.value]
    ensures k.Entry? && |tokens| == 1 ==> tokens[0] == k.name + "=" + k.value && '=' !in k.name
  {
    if tokens == [] then Skip
    else if |tokens| == 1 && '=' in tokens[0] then
      var i := Find(tokens[0], '=', 0);
      Entry(tokens[0][..i], tokens[0][i + 1..])
    else if |tokens| == 2 then Entry(tokens[0], tokens[1])
    else Invalid
  }

  /**
   * The result of the loop over the given lines, line `n` being the
   * `n`-th of them: the first bad line stops it, and each entry sets its
   * name.
   */
  function Outcome(lines: seq<Line>, path: string): Result
    decreases |lines|
  {
    if lines == [] then Conf(map[])
    else
      var before := Outcome(lines[..|lines| - 1], path);
      var line := lines[|lines| - 1];
      if before.Failed? then before
      else if line.None? then Failed(TokenizeError(|lines|))
      else match Classify(line.value)
        case Skip => before
        case Entry(n, v) => Conf(before.conf[n := v])
        case Invalid => Failed(InvalidLine(path, |lines|))
  }

  predicate Bad(line: Line)
  {
    line.None? || Classify(line.value) == Invalid
  }

  /**
   * The parse fails exactly when some line is bad, and then it names the
   * first bad one, counting every line from 1, blank ones included.
   */
  lemma {:induction false} OutcomeFailsAtFirstBad(lines: seq<Line>, path: string)
    decreases |lines|
    ensures Outcome(lines, path).Failed? <==> exists i :: 0 <= i < |lines| && Bad(lines[i])
    ensures Outcome(lines, path).Failed? ==>
      exists i :: 0 <= i < |lines| && Bad(lines[i]) && (forall j :: 0 <= j < i ==> !Bad(lines[j]))
        && Outcome(lines, path).error == (if lines[i].None? then TokenizeError(i + 1) else InvalidLine(path, i + 1))
  {
    if lines != [] {
      var n := |lines| - 1;
      var init := lines[..n];
      OutcomeFailsAtFirstBad(init, path);
      assert forall i :: 0 <= i < n ==> init[i] == lines[i];
      if Outcome(init, path).Failed? {
        var i :| 0 <= i < n && Bad(init[i]) && (forall j :: 0 <= j < i ==> !Bad(init[j]))
          && Outcome(init, path).error == (if init[i].None? then TokenizeError(i + 1) else InvalidLine(path, i + 1));
        assert Bad(lines[i]) && forall j :: 0 <= j < i ==> !Bad(lines[j]);
      } else if Bad(lines[n]) {
        assert forall j :: 0 <= j < n ==> !Bad(lines[j]);
      } else {
        assert Outcome(lines, path).Conf?;
        assert forall j :: 0 <= j < n + 1 ==> !Bad(lines[j]);
      }
    }
  }

  /** Once a prefix of the lines fails, the whole parse fails the same way. */
  lemma {:induction false} FailureSticks(lines: seq<Line>, k: nat, path: string)
    requires k <= |lines| && Outcome(lines[..k], path).Failed?
    decreases |lines| - k
    ensures Outcome(lines, path) == Outcome(lines[..k], path)
  {
    if k < |lines| {
      assert lines[..k + 1][..k] == lines[..k];
      FailureSticks(lines, k + 1, path);
    } else {
      assert lines[..k] == lines;
    }
  }

  /** The value a name has on the last line that sets it, if any. */
  function LastValue(lines: seq<Line>, name: string): Option<string>
    decreases |lines|
  {
    if lines == [] then None
    else
      var line := lines[|lines| - 1];
      if line.Some? && Classify(line.value).Entry? && Classify(line.value).name == name
      then Some(Classify(line.value).value)
      else LastValue(lines[..|lines| - 1], name)
  }

  /** For a repeated name the last value wins; a name never set is absent. */
  lemma {:induction false} LastValueWins(lines: seq<Line>, path: string, name: string)
    decreases |lines|
    requires Outcome(lines, path).Conf?
    ensures name in Outcome(lines, path).conf <==> LastValue(lines, name).Some?
    ensures name in Outcome(lines, path).conf ==> Outcome(lines, path).conf[name] == LastValue(lines, name).value
  {
    if lines != [] {
      LastValueWins(lines[..|lines| - 1], path, name);
    }
  }

  /**
   * `parse(path, iterable)`. `path` is "" when none is given; `isFile` is
   * `os.path.isfile(path)` and `fileLines` the lines of that file; an
   * iterable counts as given when it holds a line. The loop is proved
   * against `Outcome`.
   */
  method Parse(path: string, iterable: Option<seq<Line>>, isFile: bool, fileLines: seq<Line>)
    returns (r: Result)
    ensures path != "" && iterable.Some? && iterable.value != [] ==> r == Failed(BothGiven)
    ensures path != "" && !(iterable.Some? && iterable.value != []) ==>
      r == (if isFile then Outcome(fileLines, path) else Conf(map[]))
    ensures path == "" && iterable.Some? && iterable.value != [] ==> r == Outcome(iterable.value, "<cmdline>")
    ensures path == "" && !(iterable.Some? && iterable.value != []) ==> r == Conf(map[])
  {
    var lines: seq<Line>;
    var name := path;
    if path != "" && iterable.Some? && iterable.value != [] {
      return Failed(BothGiven);
    } else if path != "" {
      if !isFile {
        return Conf(map[]);
      }
      lines := fileLines;
    } else if iterable.Some? && iterable.value != [] {
      lines := iterable.value;
      name := "<cmdline>";
    } else {
      return Conf(map[]);
    }
    var conf: map<string, string> := map[];
    var lineno := 0;
    while lineno < |lines|
      invariant 0 <= lineno <= |lines|
      invariant Outcome(lines[..lineno], name) == Conf(conf)
    {
      var line := lines[lineno];
      lineno := lineno + 1;
      assert lines[..lineno][..lineno - 1] == lines[..lineno - 1];
      if line.None? {
        FailureSticks(lines, lineno, name);
        return Failed(TokenizeError(lineno));
      }
      var tokens := line.value;
      if tokens == [] {
        continue;
      }
      if |tokens| == 1 && '=' in tokens[0] {
        var i := Find(tokens[0], '=', 0);
        tokens := [tokens[0][..i], tokens[0][i + 1..]];
      }
      if |tokens| != 2 {
        FailureSticks(lines, lineno, name);
        return Failed(InvalidLine(name, lineno));
      }
      conf := conf[tokens[0] := tokens[1]];
    }
    assert lines[..lineno] == lines;
    return Conf(conf);
  }

  /** `parse_safe`: the configuration, or an empty one on any error. */
  method ParseSafe(path: string, iterable: Option<seq<Line>>, isFile: bool, fileLines: seq<Line>)
    returns (conf: map<string, string>)
    ensures var r := if path != "" && iterable.Some? && iterable.value != [] then Failed(BothGiven)
                     else if path != "" then (if isFile then Outcome(fileLines, path) else Conf(map[]))
                     else if iterable.Some? && iterable.value != [] then Outcome(iterable.value, "<cmdline>")
                     else Conf(map[]);
      conf == (if r.Conf? then r.conf else map[])
  {
    var r := Parse(path, iterable, isFile, fileLines);
    conf := if r.Conf? then r.conf else map[];
  }
}
