/** `load_env`: read `KEY=value` settings from `.env`. The file is given as
    its lines (`None` when it does not exist). */
module EnvFile {
  import opened Wrappers
  import opened Text

  type Settings = map<string, string>

  /** A line `load_env` ignores once stripped: blank, without `=`, or a comment. */
  predicate Skipped(line: string)
    ensures '=' !in line ==> Skipped(line)
    ensures (forall i :: 0 <= i < |line| ==> IsSpace(line[i])) ==> Skipped(line)
  {
    var t := Strip(line);
    t == "" || '=' !in t || t[0] == '#'
  }

  /** One line: split at its first `=`, both sides stripped. */
  function ParseEnvLine(line: string): (r: Option<(string, string)>)
    ensures r.None? <==> Skipped(line)
    ensures r.Some? ==> '=' !in r.value.0
    ensures r.Some? ==> Strip(r.value.0) == r.value.0 && Strip(r.value.1) == r.value.1
  {
    var t := Strip(line);
    if t == "" || t[0] == '#' then None
    else
      match FirstIndexOf(t, '=')
      case None => None
      case Some(e) =>
        assert forall c :: c in t[..e] ==> c != '=';
        Some((Strip(t[..e]), Strip(t[e + 1..])))
  }

  /** A line's contribution: the pair it sets, if any. */
  type Entry = Option<(string, string)>

  /** The keys some entry sets. */
  function EntryKeys(entries: seq<Entry>): set<string> {
    set i | 0 <= i < |entries| && entries[i].Some? :: entries[i].value.0
  }

  /** The settings the entries make, in order; a later entry for the same
      key replaces the earlier value. */
  function Assign(entries: seq<Entry>): (r: Settings)
    ensures r.Keys == EntryKeys(entries)
    decreases |entries|
  {
    if |entries| == 0 then map[]
    else
      var n := |entries| - 1;
      var earlier := Assign(entries[..n]);
      assert EntryKeys(entries) == EntryKeys(entries[..n]) + (if entries[n].Some? then {entries[n].value.0} else {}) by {
        assert forall i :: 0 <= i < n ==> entries[..n][i] == entries[i];
      }
      match entries[n]
      case None => earlier
      case Some((key, value)) => earlier[key := value]
  }

  /** The value of a key is the one of the last entry that sets it. */
  lemma {:induction false} AssignLastWins(entries: seq<Entry>, i: nat)
    requires i < |entries| && entries[i].Some?
    requires forall j :: i < j < |entries| ==> entries[j].None? || entries[j].value.0 != entries[i].value.0
    ensures entries[i].value.0 in Assign(entries)
    ensures Assign(entries)[entries[i].value.0] == entries[i].value.1
    decreases |entries|
  {
    var n := |entries| - 1;
    if i < n {
      assert entries[..n][i] == entries[i];
      forall j | i < j < n
        ensures entries[..n][j].None? || entries[..n][j].value.0 != entries[i].value.0
      {
        assert entries[..n][j] == entries[j];
      }
      AssignLastWins(entries[..n], i);
    }
  }

  /** Trailing entries that set nothing change nothing. */
  lemma {:induction false} AssignIgnoresTrailing(entries: seq<Entry>, extra: seq<Entry>)
    requires forall j :: 0 <= j < |extra| ==> extra[j].None?
    ensures Assign(entries + extra) == Assign(entries)
    decreases |extra|
  {
    if |extra| > 0 {
      var n := |extra| - 1;
      var all := entries + extra;
      assert all[..|all| - 1] == entries + extra[..n];
      assert all[|all| - 1] == extra[n];
      assert Assign(all) == Assign(all[..|all| - 1]);
      AssignIgnoresTrailing(entries, extra[..n]);
    } else {
      assert entries + extra == entries;
    }
  }

  /** Entries that set nothing change nothing, wherever they stand. */
  lemma {:induction false} AssignIgnoresEmpty(before: seq<Entry>, extra: seq<Entry>, after: seq<Entry>)
    requires forall j :: 0 <= j < |extra| ==> extra[j].None?
    ensures Assign(before + extra + after) == Assign(before + after)
    decreases |after|
  {
    if |after| > 0 {
      var n := |after| - 1;
      var all := before + extra + after;
      var kept := before + after;
      assert all[..|all| - 1] == before + extra + after[..n] && all[|all| - 1] == after[n];
      assert kept[..|kept| - 1] == before + after[..n] && kept[|kept| - 1] == after[n];
      AssignIgnoresEmpty(before, extra, after[..n]);
    } else {
      assert before + extra + after == before + extra && before + after == before;
      AssignIgnoresTrailing(before, extra);
    }
  }

  /** Every line parsed. */
  function Parsed(lines: seq<string>): (p: seq<Entry>)
    ensures |p| == |lines|
    ensures forall i :: 0 <= i < |lines| ==> p[i] == ParseEnvLine(lines[i])
  {
    seq(|lines|, i requires 0 <= i < |lines| => ParseEnvLine(lines[i]))
  }

  lemma ParsedAppend(a: seq<string>, b: seq<string>)
    ensures Parsed(a + b) == Parsed(a) + Parsed(b)
  {
  }

  /** The settings read from `lines`. */
  function LoadLines(lines: seq<string>): (r: Settings)
    ensures forall key :: key in r <==> exists i :: 0 <= i < |lines| && ParseEnvLine(lines[i]).Some? && ParseEnvLine(lines[i]).value.0 == key
  {
    var entries := Parsed(lines);
    assert forall key :: key in EntryKeys(entries) ==> exists i :: 0 <= i < |lines| && ParseEnvLine(lines[i]).Some? && ParseEnvLine(lines[i]).value.0 == key;
    assert forall i :: 0 <= i < |lines| && ParseEnvLine(lines[i]).Some? ==> ParseEnvLine(lines[i]).value.0 in EntryKeys(entries);
    Assign(entries)
  }

  /** `load_env()`: no file, no settings. */
  function LoadEnv(file: Option<seq<string>>): (r: Settings)
    ensures file.None? ==> r == map[]
    ensures file.Some? ==> forall key :: key in r <==>
      exists i :: 0 <= i < |file.value| && ParseEnvLine(file.value[i]).Some? && ParseEnvLine(file.value[i]).value.0 == key
  {
    match file
    case None => map[]
    case Some(lines) => LoadLines(lines)
  }

  /** The value of a key is the one on the last line that sets it. */
  lemma LastAssignmentWins(lines: seq<string>, i: nat)
    requires i < |lines| && ParseEnvLine(lines[i]).Some?
    requires forall j :: i < j < |lines| ==>
      ParseEnvLine(lines[j]).None? || ParseEnvLine(lines[j]).value.0 != ParseEnvLine(lines[i]).value.0
    ensures ParseEnvLine(lines[i]).value.0 in LoadLines(lines)
    ensures LoadLines(lines)[ParseEnvLine(lines[i]).value.0] == ParseEnvLine(lines[i]).value.1
  {
    AssignLastWins(Parsed(lines), i);
  }

  /** Blank lines, comments and lines without `=` change nothing, wherever
      they stand in the file. */
  lemma SkippedLinesIgnored(lines: seq<string>, extra: seq<string>, rest: seq<string>)
    requires forall j :: 0 <= j < |extra| ==> Skipped(extra[j])
    ensures LoadLines(lines + extra + rest) == LoadLines(lines + rest)
  {
    ParsedAppend(lines + extra, rest);
    ParsedAppend(lines, extra);
    ParsedAppend(lines, rest);
    AssignIgnoresEmpty(Parsed(lines), Parsed(extra), Parsed(rest));
  }

  /** A line splits at the first `=` of its stripped text. */
  lemma ParseAtFirstEquals(line: string, e: nat)
    requires e < |Strip(line)| && Strip(line)[0] != '#'
    requires Strip(line)[e] == '=' && forall k :: 0 <= k < e ==> Strip(line)[k] != '='
    ensures ParseEnvLine(line) == Some((Strip(Strip(line)[..e]), Strip(Strip(line)[e + 1..])))
  {
    var t := Strip(line);
    assert FirstIndexOf(t, '=') == Some(e);
  }

  lemma PlainLayout(key: string, value: string)
    requires '=' !in key
    ensures (key + "=" + value)[|key|] == '='
    ensures forall k :: 0 <= k < |key| ==> (key + "=" + value)[k] != '='
    ensures (key + "=" + value)[..|key|] == key && (key + "=" + value)[|key| + 1..] == value
  {
  }

  lemma SpacedLayout(key: string, value: string)
    requires '=' !in key
    ensures (key + " = " + value)[|key| + 1] == '='
    ensures forall k :: 0 <= k < |key| + 1 ==> (key + " = " + value)[k] != '='
    ensures (key + " = " + value)[..|key| + 1] == [] + key + " "
    ensures (key + " = " + value)[|key| + 2..] == " " + value + []
    ensures key + " = " + value + "\n" == [] + (key + " = " + value) + "\n"
  {
  }

  /** `KEY=value` reads back as the pair it was written from; the value may
      itself contain `=`. */
  lemma ParseAssignment(key: string, value: string)
    requires '=' !in key
    requires key == [] || (key[0] != '#' && !IsSpace(key[0]) && !IsSpace(key[|key| - 1]))
    requires value == [] || (!IsSpace(value[0]) && !IsSpace(value[|value| - 1]))
    ensures ParseEnvLine(key + "=" + value) == Some((key, value))
  {
    var line := key + "=" + value;
    PlainLayout(key, value);
    assert Strip(line) == line by {
      assert line == [] + line + [];
      StripPadded([], line, []);
    }
    ParseAtFirstEquals(line, |key|);
  }

  lemma SpacedStrips(key: string, value: string)
    requires '=' !in key && key != [] && value != []
    requires !IsSpace(key[0]) && !IsSpace(key[|key| - 1])
    requires !IsSpace(value[0]) && !IsSpace(value[|value| - 1])
    ensures Strip(key + " = " + value + "\n") == key + " = " + value
    ensures Strip((key + " = " + value)[..|key| + 1]) == key
    ensures Strip((key + " = " + value)[|key| + 2..]) == value
  {
    SpacedLayout(key, value);
    StripPadded([], key + " = " + value, "\n");
    StripPadded([], key, " ");
    StripPadded(" ", value, []);
  }

  /** The usual layout with spaces around `=` and the line terminator. */
  lemma SpacedAssignment(key: string, value: string)
    requires '=' !in key && key != [] && value != []
    requires key[0] != '#' && !IsSpace(key[0]) && !IsSpace(key[|key| - 1])
    requires !IsSpace(value[0]) && !IsSpace(value[|value| - 1])
    ensures ParseEnvLine(key + " = " + value + "\n") == Some((key, value))
  {
    SpacedLayout(key, value);
    SpacedStrips(key, value);
    ParseAtFirstEquals(key + " = " + value + "\n", |key| + 1);
  }
}
