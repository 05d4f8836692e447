/** The mail-check script's `.env` reader. The file is split on `\n`; a line
    counts when it starts with a key of one or more characters other than
    `=`, `:` and `#`, followed by `=` or `:`. The key and the value (up to
    the first line terminator) are trimmed, one pair of surrounding quote
    characters is stripped from the value, and the variable is set only when
    it is not already set to a non-empty value. `.env` is read before
    `.env.local`. */
module EnvLoader {
  import opened Common

  predicate IsSeparator(c: char)
  {
    c == '=' || c == ':' || c == '#'
  }

  /** The index of the first `=`, `:` or `#`, or -1. */
  function FirstSeparator(line: string): (i: int)
    ensures -1 <= i < |line|
    ensures 0 <= i ==> IsSeparator(line[i])
    ensures forall j :: 0 <= j < |line| && (i == -1 || j < i) ==> !IsSeparator(line[j])
  {
    if line == [] then -1
    else if IsSeparator(line[0]) then 0
    else
      var r := FirstSeparator(line[1..]);
      assert forall j :: 1 <= j < |line| ==> line[j] == line[1..][j - 1];
      if r == -1 then -1 else r + 1
  }

  /** `(.*)`: the text up to the first line terminator. */
  function UpToLineEnd(s: string): (r: string)
    ensures |r| <= |s| && r == s[..|r|]
    ensures forall j :: 0 <= j < |r| ==> !IsLineTerminator(r[j])
    ensures |r| < |s| ==> IsLineTerminator(s[|r|])
  {
    if s == [] || IsLineTerminator(s[0]) then [] else [s[0]] + UpToLineEnd(s[1..])
  }

  predicate IsQuote(c: char)
  {
    c == '\'' || c == '"'
  }

  /** `replace(/^['"](.*)['"]$/, '$1')`: the two quote characters need not be
      the same. */
  function StripQuotes(v: string): (r: string)
    ensures |v| >= 2 && IsQuote(v[0]) && IsQuote(v[|v| - 1]) ==> r == v[1..|v| - 1]
    ensures !(|v| >= 2 && IsQuote(v[0]) && IsQuote(v[|v| - 1])) ==> r == v
  {
    if |v| >= 2 && IsQuote(v[0]) && IsQuote(v[|v| - 1]) then v[1..|v| - 1] else v
  }

  /** The key and value a line sets, if it matches. */
  function MatchLine(line: string): (r: Option<(string, string)>)
    ensures r.Some? <==> 1 <= FirstSeparator(line) && line[FirstSeparator(line)] != '#'
  {
    var i := FirstSeparator(line);
    if i < 1 || line[i] == '#' then None
    else Some((Trim(line[..i]), StripQuotes(Trim(UpToLineEnd(line[i + 1..])))))
  }

  type Parsed = Option<(string, string)>

  /** Every line parsed on its own. */
  function ParseAll(lines: seq<string>): (ps: seq<Parsed>)
    ensures |ps| == |lines| && forall i :: 0 <= i < |lines| ==> ps[i] == MatchLine(lines[i])
  {
    seq(|lines|, i requires 0 <= i < |lines| => MatchLine(lines[i]))
  }

  /** One line's effect: an unset or empty variable takes the value. */
  function Assign(vars: map<string, string>, p: Parsed): map<string, string>
  {
    if p.None? then vars
    else if p.value.0 in vars && vars[p.value.0] != "" then vars
    else vars[p.value.0 := p.value.1]
  }

  function Load(vars: map<string, string>, ps: seq<Parsed>): map<string, string>
  {
    if ps == [] then vars else Assign(Load(vars, ps[..|ps| - 1]), ps[|ps| - 1])
  }

  lemma LoadStep(vars: map<string, string>, ps: seq<Parsed>, i: nat)
    requires i < |ps|
    ensures Load(vars, ps[..i + 1]) == Assign(Load(vars, ps[..i]), ps[i])
  {
    assert ps[..i + 1][..i] == ps[..i];
  }

  /** The environment after reading the lines of a file. */
  function LoadLines(vars: map<string, string>, lines: seq<string>): map<string, string>
  {
    Load(vars, ParseAll(lines))
  }

  /** The first non-empty value the parsed lines give `key`. */
  function FirstValue(ps: seq<Parsed>, key: string): (r: Option<string>)
    ensures r.Some? ==> r.value != "" && Mentions(ps, key)
  {
    if ps == [] then None
    else
      var before := FirstValue(ps[..|ps| - 1], key);
      var p := ps[|ps| - 1];
      if before.Some? then before
      else if p.Some? && p.value.0 == key && p.value.1 != "" then Some(p.value.1)
      else None
  }

  /** Some parsed line sets `key`. */
  predicate Mentions(ps: seq<Parsed>, key: string)
  {
    exists j :: 0 <= j < |ps| && ps[j].Some? && ps[j].value.0 == key
  }

  /** What loading leaves in a variable: one already set to a non-empty
      value keeps it; otherwise the first non-empty value the lines give it,
      if any; otherwise it is empty if set at all. */
  lemma {:induction false} LoadSpec(vars: map<string, string>, ps: seq<Parsed>, key: string)
    ensures var r := Load(vars, ps);
            && (key in vars && vars[key] != "" ==> key in r && r[key] == vars[key])
            && (!(key in vars && vars[key] != "") && FirstValue(ps, key).Some? ==>
                  key in r && r[key] == FirstValue(ps, key).value)
            && (!(key in vars && vars[key] != "") && FirstValue(ps, key).None? ==>
                  key in r ==> r[key] == "")
  {
    if ps != [] {
      LoadSpec(vars, ps[..|ps| - 1], key);
    }
  }

  /** Only variables that were set or that some line names are present
      after loading. */
  lemma {:induction false} LoadKeys(vars: map<string, string>, ps: seq<Parsed>, key: string)
    ensures key in Load(vars, ps) <==> key in vars || Mentions(ps, key)
  {
    if ps != [] {
      var init := ps[..|ps| - 1];
      LoadKeys(vars, init, key);
      assert forall j :: 0 <= j < |init| ==> init[j] == ps[j];
      if Mentions(ps, key) && !Mentions(init, key) {
        var j :| 0 <= j < |ps| && ps[j].Some? && ps[j].value.0 == key;
        assert j == |ps| - 1;
      }
    }
  }

  /** A variable already set to a non-empty value is never overwritten, and
      no variable is ever removed. */
  lemma NeverOverwrites(vars: map<string, string>, lines: seq<string>)
    ensures forall key :: key in vars && vars[key] != "" ==> key in LoadLines(vars, lines) && LoadLines(vars, lines)[key] == vars[key]
    ensures vars.Keys <= LoadLines(vars, lines).Keys
  {
    forall key | key in vars ensures key in LoadLines(vars, lines)
      && (vars[key] != "" ==> LoadLines(vars, lines)[key] == vars[key])
    {
      LoadSpec(vars, ParseAll(lines), key);
      LoadKeys(vars, ParseAll(lines), key);
    }
  }

  /** `.env` is read first, so a non-empty value from it survives
      `.env.local`. */
  lemma DotEnvWins(vars: map<string, string>, env: seq<string>, local: seq<string>)
    ensures var afterEnv := LoadLines(vars, env);
            forall key :: key in afterEnv && afterEnv[key] != "" ==>
              key in LoadLines(afterEnv, local) && LoadLines(afterEnv, local)[key] == afterEnv[key]
  {
    NeverOverwrites(LoadLines(vars, env), local);
  }

  /** A key of separator-free characters followed by `=` or `:` sets the
      trimmed key to the trimmed, unquoted rest of the line: the first
      separator decides, so `A:B=c` sets `A` to `B=c`. */
  lemma KeyValueLine(k: string, sep: char, v: string)
    requires |k| >= 1 && forall j :: 0 <= j < |k| ==> !IsSeparator(k[j])
    requires sep == '=' || sep == ':'
    ensures MatchLine(k + [sep] + v) == Some((Trim(k), StripQuotes(Trim(UpToLineEnd(v)))))
  {
    var line := k + [sep] + v;
    SeparatorAfterKey(k, sep, v);
    assert line[..|k|] == k;
    assert line[|k| + 1..] == v;
  }

  /** The first separator of such a line is the one after the key. */
  lemma SeparatorAfterKey(k: string, sep: char, v: string)
    requires forall j :: 0 <= j < |k| ==> !IsSeparator(k[j])
    requires sep == '=' || sep == ':'
    ensures FirstSeparator(k + [sep] + v) == |k| && (k + [sep] + v)[|k|] == sep
  {
    var line := k + [sep] + v;
    assert line[|k|] == sep;
    assert forall j :: 0 <= j < |k| ==> line[j] == k[j];
  }

  /** A line whose first character is `=`, `:` or `#` is ignored: a comment,
      or an empty key. */
  lemma IgnoredLine(line: string)
    requires line != [] && IsSeparator(line[0])
    ensures MatchLine(line) == None
  {
  }

  /** A line with no separator at all is ignored. */
  lemma NoSeparatorLine(line: string)
    requires forall j :: 0 <= j < |line| ==> !IsSeparator(line[j])
    ensures MatchLine(line) == None
  {
  }

  class Environment {
    var vars: map<string, string>

    constructor (vars: map<string, string>)
      ensures this.vars == vars
    {
      this.vars := vars;
    }

    /** `loadEnv`: `content` is the file's text, `None` when it does not
        exist. */
    method LoadEnv(content: Option<string>)
      modifies this
      ensures content.None? ==> vars == old(vars)
      ensures content.Some? ==> vars == LoadLines(old(vars), Split(content.value, '\n'))
    {
      if content.None? {
        return;
      }
      var lines := Split(content.value, '\n');
      ghost var ps := ParseAll(lines);
      var i := 0;
      while i < |lines|
        invariant 0 <= i <= |lines|
        invariant vars == Load(old(vars), ps[..i])
      {
        LoadStep(old(vars), ps, i);
        var m := MatchLine(lines[i]);
        assert m == ps[i];
        SetUnlessSet(m);
        i := i + 1;
      }
      assert ps[..|lines|] == ps;
    }

    /** One matched line: an unset or empty variable takes the value. */
    method SetUnlessSet(m: Parsed)
      modifies this
      ensures vars == Assign(old(vars), m)
    {
      if m.Some? {
        var key := m.value.0;
        if !(key in vars && vars[key] != "") {
          vars := vars[key := m.value.1];
        }
      }
    }

    /** The script's start-up: `.env`, then `.env.local`. */
    method LoadBoth(env: Option<string>, local: Option<string>)
      modifies this
      ensures var afterEnv := if env.Some? then LoadLines(old(vars), Split(env.value, '\n')) else old(vars);
              vars == if local.Some? then LoadLines(afterEnv, Split(local.value, '\n')) else afterEnv
    {
      LoadEnv(env);
      LoadEnv(local);
    }
  }
}
