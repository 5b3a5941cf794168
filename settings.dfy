/** Rendering of the hardening table into the text of a `user.js` file (`get_harden_settings`). */
module Settings {
  import opened Text

  /** The first two lines of every generated file: a comment naming the tool, then a blank line. */
  const Header: string := HeaderComment + "\n\n"

  /** The comment line that opens the file. */
  const HeaderComment: string := "// Created by ffhrd - github.com/jxdv/ffhrd"

  /** One table entry: the preference key and its value text, pasted verbatim. */
  type Setting = (string, string)

  /** `f'user_pref("{opt}", {val});\n'` */
  function PrefLine(opt: string, val: string): (r: string)
    ensures |r| == |opt| + |val| + 17
    ensures EndsWith(r, ");\n")
  {
    "user_pref(\"" + opt + "\", " + val + ");\n"
  }

  /** The preference lines of `table`, one per entry, in table order. */
  function Lines(table: seq<Setting>): string
    decreases |table|
  {
    if table == [] then ""
    else Lines(table[..|table| - 1]) + PrefLine(table[|table| - 1].0, table[|table| - 1].1)
  }

  /** The whole text `get_harden_settings` returns for `table`. */
  function Serialize(table: seq<Setting>): (r: string)
    ensures StartsWith(r, Header)
    ensures table != [] ==> EndsWith(r, ");\n")
  {
    assert table != [] ==> EndsWith(Header + Lines(table), ");\n") by {
      if table != [] { LinesEnd(Header, table); }
    }
    Header + Lines(table)
  }

  /** Text ending in the lines of a non-empty table ends with the `);` and newline of its last line. */
  lemma LinesEnd(prefix: string, table: seq<Setting>)
    requires table != []
    ensures EndsWith(prefix + Lines(table), ");\n")
  {
    var last := table[|table| - 1];
    var line := PrefLine(last.0, last.1);
    assert prefix + Lines(table) == (prefix + Lines(table[..|table| - 1])) + line;
    EndsWithAppend(prefix + Lines(table[..|table| - 1]), line, ");\n");
  }

  /** `get_harden_settings()`, with the table as a parameter: starts from the header and appends a line per entry. */
  method GetHardenSettings(table: seq<Setting>) returns (hardenSettings: string)
    ensures hardenSettings == Serialize(table)
  {
    hardenSettings := Header;
    for i := 0 to |table|
      invariant hardenSettings == Header + Lines(table[..i])
    {
      var (opt, val) := table[i];
      assert table[..i + 1][..i] == table[..i];
      hardenSettings := hardenSettings + PrefLine(opt, val);
    }
    assert table[..|table|] == table;
  }

  /** Rendering a concatenated table renders each part, first part first. */
  lemma {:induction false} LinesAppend(a: seq<Setting>, b: seq<Setting>)
    ensures Lines(a + b) == Lines(a) + Lines(b)
    decreases |b|
  {
    if b == [] {
      assert a + b == a;
    } else {
      var init, last := b[..|b| - 1], b[|b| - 1];
      var line := PrefLine(last.0, last.1);
      assert b == init + [last];
      assert a + b == (a + init) + [last];
      calc {
        Lines(a + b);
        { LinesSnoc(a + init, last); }
        Lines(a + init) + line;
        { LinesAppend(a, init); }
        (Lines(a) + Lines(init)) + line;
        Lines(a) + (Lines(init) + line);
        { LinesSnoc(init, last); }
        Lines(a) + Lines(b);
      }
    }
  }

  /** One more entry adds its line at the end. */
  lemma LinesSnoc(table: seq<Setting>, entry: Setting)
    ensures Lines(table + [entry]) == Lines(table) + PrefLine(entry.0, entry.1)
  {
    assert (table + [entry])[..|table|] == table;
  }

  /** The first entry's line comes first, then the lines of the rest. */
  lemma LinesCons(first: Setting, rest: seq<Setting>)
    ensures Lines([first] + rest) == PrefLine(first.0, first.1) + Lines(rest)
  {
    LinesAppend([first], rest);
    assert [first][..0] == [];
    assert Lines([first]) == Lines([]) + PrefLine(first.0, first.1);
  }

  /** The output is the header followed, for each entry in order, by exactly its `user_pref` line. */
  lemma SerializeShape(first: Setting, rest: seq<Setting>)
    ensures Serialize([first] + rest) == Header + PrefLine(first.0, first.1) + Lines(rest)
    ensures StartsWith(Serialize(rest), Header)
  {
    LinesCons(first, rest);
    assert Serialize(rest)[..|Header|] == Header;
  }

  /** No newline in any key or value. */
  predicate SingleLineEntries(table: seq<Setting>) {
    forall k :: 0 <= k < |table| ==> '\n' !in table[k].0 && '\n' !in table[k].1
  }

  /** With single-line keys and values, the text has exactly `|table| + 2` newline characters. */
  lemma NewlineCount(table: seq<Setting>)
    requires SingleLineEntries(table)
    ensures multiset(Serialize(table))['\n'] == |table| + 2
  {
    HeaderNewlines();
    LinesNewlines(table);
    NewlinesAppend(Header, Lines(table));
  }

  /** Each single-line entry contributes exactly one newline. */
  lemma {:induction false} LinesNewlines(table: seq<Setting>)
    requires SingleLineEntries(table)
    ensures multiset(Lines(table))['\n'] == |table|
    decreases |table|
  {
    if table != [] {
      var init := table[..|table| - 1];
      var (opt, val) := table[|table| - 1];
      assert SingleLineEntries(init) by {
        forall k | 0 <= k < |init| ensures '\n' !in init[k].0 && '\n' !in init[k].1 {
          assert init[k] == table[k];
        }
      }
      LinesNewlines(init);
      PrefLineNewlines(opt, val);
      NewlinesAppend(Lines(init), PrefLine(opt, val));
    }
  }

  /** Newlines of a concatenation add up. */
  lemma NewlinesAppend(x: string, y: string)
    ensures multiset(x + y)['\n'] == multiset(x)['\n'] + multiset(y)['\n']
  {
    assert multiset(x + y) == multiset(x) + multiset(y);
  }

  lemma HeaderNewlines()
    ensures multiset(Header)['\n'] == 2
  {
    var comment := HeaderComment;
    assert '\n' !in comment;
    NewlinesAfter(comment, "\n\n", 2);
  }

  lemma PrefLineNewlines(opt: string, val: string)
    requires '\n' !in opt && '\n' !in val
    ensures multiset(PrefLine(opt, val))['\n'] == 1
  {
    var body := "user_pref(\"" + opt + "\", " + val + ");";
    assert PrefLine(opt, val) == body + "\n";
    NewlinesAfter(body, "\n", 1);
  }

  /** Text without newlines adds none. */
  lemma NewlinesAfter(x: string, y: string, n: nat)
    requires '\n' !in x && multiset(y)['\n'] == n
    ensures multiset(x + y)['\n'] == n
  {
    assert multiset(x + y) == multiset(x) + multiset(y);
  }

  /** The entries a reader can recover from the text: keys free of `"`, values free of newlines. */
  predicate Recoverable(table: seq<Setting>) {
    forall k :: 0 <= k < |table| ==> '"' !in table[k].0 && '\n' !in table[k].1
  }

  /**
   * Reads one `user_pref("<key>", <value>);` line off the front of `s`: the key runs to the
   * first `"`, the value to the end of the line, minus the closing `);`.
   */
  function ParsePrefLine(s: string): (r: Option<(Setting, string)>)
    ensures r.Some? ==> |r.value.1| < |s|
  {
    var open := "user_pref(\"";
    if !StartsWith(s, open) then None
    else
      var afterOpen := s[|open|..];
      var q := IndexOf(afterOpen, '"');
      var afterKey := afterOpen[q..];
      if !StartsWith(afterKey, "\", ") then None
      else match ParseValue(afterKey[3..])
        case None => None
        case Some((val, rest)) => Some(((afterOpen[..q], val), rest))
  }

  /** Reads a value up to the end of its line and drops the closing `);`; also gives the text after the line. */
  function ParseValue(s: string): (r: Option<(string, string)>)
    ensures r.Some? ==> |r.value.1| < |s|
  {
    var n := IndexOf(s, '\n');
    if n == |s| then None
    else
      var line := s[..n];
      if !EndsWith(line, ");") then None
      else Some((line[..|line| - 2], s[n + 1..]))
  }

  /** Reads preference lines until the text is used up. */
  function ParseLines(s: string): Option<seq<Setting>>
    decreases |s|
  {
    if s == [] then Some([])
    else match ParsePrefLine(s)
      case None => None
      case Some((entry, rest)) =>
        match ParseLines(rest)
        case None => None
        case Some(entries) => Some([entry] + entries)
  }

  /** Reads a generated file back into its table. */
  function ParseSettings(s: string): Option<seq<Setting>> {
    if StartsWith(s, Header) then ParseLines(s[|Header|..]) else None
  }

  datatype Option<T> = None | Some(value: T)

  lemma IndexOfAfter(a: string, b: string, c: char)
    requires c !in a && |b| > 0 && b[0] == c
    ensures IndexOf(a + b, c) == |a|
  {
    var s := a + b;
    IndexOfFirst(s, c);
    assert s[|a|] == c;
    assert forall j :: 0 <= j < |a| ==> s[j] == a[j];
  }

  lemma ParseValueSpec(val: string, rest: string)
    requires '\n' !in val
    ensures ParseValue(val + ");\n" + rest) == Some((val, rest))
  {
    var s := val + ");\n" + rest;
    assert s == (val + ");") + ("\n" + rest);
    assert '\n' !in val + ");";
    IndexOfAfter(val + ");", "\n" + rest, '\n');
    assert s[..|val| + 2] == val + ");";
    assert s[|val| + 3..] == rest;
  }

  /** A generated line, whatever follows it, is read back as its own key and value. */
  lemma ParsePrefLineSpec(opt: string, val: string, rest: string)
    requires '"' !in opt && '\n' !in val
    ensures ParsePrefLine(PrefLine(opt, val) + rest) == Some(((opt, val), rest))
  {
    var open := "user_pref(\"";
    var tail := val + ");\n" + rest;
    var s := PrefLine(opt, val) + rest;
    assert s == open + (opt + ("\", " + tail));
    var afterOpen := s[|open|..];
    assert afterOpen == opt + ("\", " + tail);
    IndexOfAfter(opt, "\", " + tail, '"');
    var afterKey := afterOpen[|opt|..];
    assert afterKey == "\", " + tail;
    assert afterKey[3..] == tail;
    ParseValueSpec(val, rest);
  }

  /** Parsing the preference lines of a recoverable table gives the table back. */
  lemma {:induction false} ParseLinesRoundTrip(table: seq<Setting>)
    requires Recoverable(table)
    ensures ParseLines(Lines(table)) == Some(table)
    decreases |table|
  {
    if table != [] {
      var first, rest := table[0], table[1..];
      assert table == [first] + rest;
      LinesCons(first, rest);
      ParsePrefLineSpec(first.0, first.1, Lines(rest));
      assert Recoverable(rest) by {
        forall k | 0 <= k < |rest| ensures '"' !in rest[k].0 && '\n' !in rest[k].1 {
          assert rest[k] == table[k + 1];
        }
      }
      ParseLinesRoundTrip(rest);
      assert PrefLine(first.0, first.1) != [];
    }
  }

  /** Round trip: reading the generated file recovers the table, provided no key holds `"` and no value a newline. */
  lemma RoundTrip(table: seq<Setting>)
    requires Recoverable(table)
    ensures ParseSettings(Serialize(table)) == Some(table)
  {
    ParseLinesRoundTrip(table);
    assert Serialize(table)[|Header|..] == Lines(table);
  }

  /** Hence distinct recoverable tables always produce distinct files. */
  lemma SerializeInjective(t1: seq<Setting>, t2: seq<Setting>)
    requires Recoverable(t1) && Recoverable(t2) && Serialize(t1) == Serialize(t2)
    ensures t1 == t2
  {
    RoundTrip(t1);
    RoundTrip(t2);
  }

  /**
   * Nothing is escaped: for any keys and values, a key holding `", <x>);` and a newline forges a
   * second preference line, so a one-entry table and a two-entry table produce the same file.
   */
  lemma UnescapedKeyForgesLine(a: string, x: string, b: string, y: string)
    ensures Serialize([(a + "\", " + x + ");\n" + "user_pref(\"" + b, y)]) == Serialize([(a, x), (b, y)])
  {
    var key := a + "\", " + x + ");\n" + "user_pref(\"" + b;
    LinesCons((key, y), []);
    LinesCons((a, x), [(b, y)]);
    LinesCons((b, y), []);
    assert [(key, y)] + [] == [(key, y)] && [(b, y)] + [] == [(b, y)] && [(a, x)] + [(b, y)] == [(a, x), (b, y)];
    ForgedLine(a, x, b, y);
  }

  /** The text of the forged line is that of the two honest lines. */
  lemma ForgedLine(a: string, x: string, b: string, y: string)
    ensures PrefLine(a + "\", " + x + ");\n" + "user_pref(\"" + b, y) == PrefLine(a, x) + PrefLine(b, y)
  {
    var open, sep, close := "user_pref(\"", "\", ", ");\n";
    assert PrefLine(a + sep + x + close + open + b, y) == open + a + sep + x + close + open + b + sep + y + close;
    assert PrefLine(a, x) + PrefLine(b, y) == open + a + sep + x + close + open + b + sep + y + close;
  }

  /** Values are pasted bare: the table's `en-US, en` for `intl.accept_languages` becomes an unquoted token list. */
  lemma ValueNotQuoted()
    ensures Serialize([("intl.accept_languages", "en-US, en")])
         == Header + "user_pref(\"intl.accept_languages\", en-US, en);\n"
  {
    var t := [("intl.accept_languages", "en-US, en")];
    assert t[..0] == [];
    assert Lines(t) == PrefLine(t[0].0, t[0].1);
    BareValueLine();
  }

  /** The line for `intl.accept_languages`, spelled out. */
  lemma BareValueLine()
    ensures PrefLine("intl.accept_languages", "en-US, en") == "user_pref(\"intl.accept_languages\", en-US, en);\n"
  {
  }
}
