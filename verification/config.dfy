/** The line rule of `load_env`: a line is skipped when, once stripped, it is
    empty, starts with `#` or has no `=`; otherwise the key is the stripped
    text before the first `=` and the value the stripped rest, which may
    itself contain `=`. A later line with the same key wins. */
module Config {
  import opened Results
  import opened Text

  datatype Entry = Entry(key: string, value: string)

  /** The lines `load_env` skips. */
  predicate Ignored(line: string) {
    var s := Strip(line);
    s == "" || StartsWith(s, "#") || '=' !in s
  }

  /** `e` is what cutting `s` at its first `=` and stripping both sides gives. */
  predicate CutAtFirstEquals(s: string, e: Entry) {
    exists i :: 0 <= i < |s| && s[i] == '=' && '=' !in s[..i] && e.key == Strip(s[..i]) && e.value == Strip(s[i + 1..])
  }

  /** One line of the `.env` file. */
  function ParseLine(line: string): Option<Entry> {
    ParseStripped(Strip(line))
  }

  /** The rule applied to the stripped line. */
  function ParseStripped(s: string): Option<Entry> {
    if s == "" || StartsWith(s, "#") then None
    else
      match IndexOf(s, '=')
      case None => None
      case Some(i) => Some(Entry(Strip(s[..i]), Strip(s[i + 1..])))
  }

  /** A line is kept unless it is blank, a comment or has no `=`; a kept line
      is cut at its first `=`, so the key holds no `=` while the value may. */
  lemma ParseLineCut(line: string)
    ensures ParseLine(line).None? <==> Ignored(line)
    ensures ParseLine(line).Some? ==> CutAtFirstEquals(Strip(line), ParseLine(line).value)
    ensures ParseLine(line).Some? ==>
              var e := ParseLine(line).value;
              '=' !in e.key && Trimmed(e.key) && Trimmed(e.value)
  {
    var s := Strip(line);
    StrippedIgnored(s);
    if ParseStripped(s).Some? {
      StrippedCut(s);
      StrippedKey(s);
    }
  }

  lemma StrippedIgnored(s: string)
    ensures ParseStripped(s).None? <==> s == "" || StartsWith(s, "#") || '=' !in s
  {
  }

  /** What a kept stripped line is cut into. */
  lemma StrippedCut(s: string)
    requires ParseStripped(s).Some?
    ensures CutAtFirstEquals(s, ParseStripped(s).value)
  {
    var i := IndexOf(s, '=').value;
    var e := ParseStripped(s).value;
    assert e == Entry(Strip(s[..i]), Strip(s[i + 1..]));
    CutAt(s, i, e);
  }

  /** The key of a kept stripped line holds no `=`, and both sides are trimmed. */
  lemma StrippedKey(s: string)
    requires ParseStripped(s).Some?
    ensures var e := ParseStripped(s).value;
            '=' !in e.key && Trimmed(e.key) && Trimmed(e.value)
  {
    var i := IndexOf(s, '=').value;
    StripNoChar(s[..i], '=');
  }

  lemma StripNoChar(t: string, c: char)
    requires c !in t
    ensures c !in Strip(t)
  {
    if c in Strip(t) {
      StripKeepsChars(t, c);
    }
  }

  lemma CutAt(s: string, i: int, e: Entry)
    requires 0 <= i < |s| && s[i] == '=' && '=' !in s[..i]
    requires e.key == Strip(s[..i]) && e.value == Strip(s[i + 1..])
    ensures CutAtFirstEquals(s, e)
  {
  }

  /** `entry` is a kept line setting `key`. */
  predicate Sets(entry: Option<Entry>, key: string) {
    entry.Some? && entry.value.key == key
  }

  /** The last entry that sets `key` sets it to `value`. */
  predicate LastSets(entries: seq<Option<Entry>>, key: string, value: string) {
    exists i :: 0 <= i < |entries| && entries[i] == Some(Entry(key, value))
                && forall j :: i < j < |entries| ==> !Sets(entries[j], key)
  }

  /** The dictionary built by assigning the kept entries in order. */
  function Assign(entries: seq<Option<Entry>>): map<string, string> {
    if |entries| == 0 then map[]
    else
      var env0 := Assign(entries[..|entries| - 1]);
      match entries[|entries| - 1]
      case None => env0
      case Some(e) => env0[e.key := e.value]
  }

  /** A key is present exactly when some entry sets it, and it holds the value
      of the last entry that does. */
  lemma {:induction false} AssignLastWins(entries: seq<Option<Entry>>, key: string)
    ensures key in Assign(entries) <==> exists i :: 0 <= i < |entries| && Sets(entries[i], key)
    ensures key in Assign(entries) ==> LastSets(entries, key, Assign(entries)[key])
  {
    if |entries| > 0 {
      var n := |entries| - 1;
      var init := entries[..n];
      AssignLastWins(init, key);
      assert forall i :: 0 <= i < n ==> init[i] == entries[i];
      if Sets(entries[n], key) {
        assert LastSets(entries, key, Assign(entries)[key]) by {
          assert entries[n] == Some(Entry(key, Assign(entries)[key]));
        }
      } else {
        assert Assign(entries).Keys * {key} == Assign(init).Keys * {key} by {
          match entries[n]
          case None =>
          case Some(e) =>
        }
        if key in Assign(entries) {
          assert Assign(entries)[key] == Assign(init)[key] by {
            match entries[n]
            case None =>
            case Some(e) =>
          }
          var v := Assign(init)[key];
          var i :| 0 <= i < n && init[i] == Some(Entry(key, v))
                   && forall j :: i < j < n ==> !Sets(init[j], key);
          assert entries[i] == Some(Entry(key, v));
        }
      }
    }
  }

  /** Appending entries overrides exactly the keys the new entries set. */
  lemma {:induction false} AssignAppend(a: seq<Option<Entry>>, b: seq<Option<Entry>>)
    ensures Assign(a + b) == Assign(a) + Assign(b)
  {
    if |b| == 0 {
      assert a + b == a;
    } else {
      var b0 := b[..|b| - 1];
      var last := b[|b| - 1];
      assert (a + b)[..|a + b| - 1] == a + b0;
      assert (a + b)[|a + b| - 1] == last;
      AssignAppend(a, b0);
      var left := Assign(a + b0);
      var right := Assign(b0);
      assert left == Assign(a) + right;
      match last
      case None =>
        assert Assign(a + b) == left;
        assert Assign(b) == right;
      case Some(e) =>
        assert Assign(a + b) == left[e.key := e.value];
        assert Assign(b) == right[e.key := e.value];
        assert (Assign(a) + right)[e.key := e.value] == Assign(a) + right[e.key := e.value];
    }
  }

  /** The parsed lines of a file, in order. */
  function ParseLines(lines: seq<string>): (entries: seq<Option<Entry>>)
    ensures |entries| == |lines|
    ensures forall i :: 0 <= i < |lines| ==> entries[i] == ParseLine(lines[i])
  {
    seq(|lines|, i requires 0 <= i < |lines| => ParseLine(lines[i]))
  }

  /** The dictionary `load_env` returns for the lines of the `.env` file. */
  function LoadEnv(lines: seq<string>): map<string, string> {
    Assign(ParseLines(lines))
  }

  /** A key is present exactly when some kept line sets it, and it holds the
      value of the last such line. */
  lemma LoadEnvLastWins(lines: seq<string>, key: string)
    ensures key in LoadEnv(lines) <==> exists i :: 0 <= i < |lines| && Sets(ParseLine(lines[i]), key)
    ensures key in LoadEnv(lines) ==>
              exists i :: 0 <= i < |lines| && ParseLine(lines[i]) == Some(Entry(key, LoadEnv(lines)[key]))
                          && forall j :: i < j < |lines| ==> !Sets(ParseLine(lines[j]), key)
  {
    var entries := ParseLines(lines);
    var env := LoadEnv(lines);
    assert env == Assign(entries);
    AssignLastWins(entries, key);
    if key in env {
      var i :| 0 <= i < |entries| && entries[i] == Some(Entry(key, env[key]))
               && forall j :: i < j < |entries| ==> !Sets(entries[j], key);
      assert ParseLine(lines[i]) == Some(Entry(key, env[key]));
      forall j | i < j < |lines| ensures !Sets(ParseLine(lines[j]), key) {
        assert !Sets(entries[j], key);
      }
    } else {
      forall i | 0 <= i < |lines| ensures !Sets(ParseLine(lines[i]), key) {
        assert !Sets(entries[i], key);
      }
    }
  }

  /** Looking a key up in the loaded file gives the value of the last line
      that sets it, or the default when no line does. */
  lemma LookupLastLine(lines: seq<string>, key: string, value: string, default: string)
    ensures (forall i :: 0 <= i < |lines| ==> !Sets(ParseLine(lines[i]), key))
            ==> Lookup(LoadEnv(lines), key, default) == default
    ensures (exists i :: 0 <= i < |lines| && ParseLine(lines[i]) == Some(Entry(key, value))
                         && forall j :: i < j < |lines| ==> !Sets(ParseLine(lines[j]), key))
            ==> Lookup(LoadEnv(lines), key, default) == value
  {
    LoadEnvLastWins(lines, key);
    var env := LoadEnv(lines);
    if i :| 0 <= i < |lines| && ParseLine(lines[i]) == Some(Entry(key, value))
            && forall j :: i < j < |lines| ==> !Sets(ParseLine(lines[j]), key) {
      var k :| 0 <= k < |lines| && ParseLine(lines[k]) == Some(Entry(key, env[key]))
               && forall j :: k < j < |lines| ==> !Sets(ParseLine(lines[j]), key);
      LastSetterUnique(lines, key, i, k);
    }
  }

  /** Only one line can be the last to set a key. */
  lemma LastSetterUnique(lines: seq<string>, key: string, i: nat, k: nat)
    requires i < |lines| && Sets(ParseLine(lines[i]), key) && forall j :: i < j < |lines| ==> !Sets(ParseLine(lines[j]), key)
    requires k < |lines| && Sets(ParseLine(lines[k]), key) && forall j :: k < j < |lines| ==> !Sets(ParseLine(lines[j]), key)
    ensures i == k
  {
  }

  /** Lines read later override earlier ones: the file's tail decides every key it sets. */
  lemma LoadEnvAppend(a: seq<string>, b: seq<string>)
    ensures LoadEnv(a + b) == LoadEnv(a) + LoadEnv(b)
  {
    assert ParseLines(a + b) == ParseLines(a) + ParseLines(b);
    AssignAppend(ParseLines(a), ParseLines(b));
  }

  /** Python's `dict.get(key, default)`. */
  function Lookup(env: map<string, string>, key: string, default: string): string {
    if key in env then env[key] else default
  }

  /** The line `key=value` written for an entry. */
  function Render(e: Entry): string {
    e.key + "=" + e.value
  }

  /** An entry whose key is trimmed, holds no `=` and does not open a comment,
      and whose value is trimmed, survives being written as a line and read
      back, even when the value itself contains `=`. */
  lemma ParseRender(e: Entry)
    requires '=' !in e.key && Trimmed(e.key) && Trimmed(e.value)
    requires !StartsWith(e.key, "#")
    ensures ParseLine(Render(e)) == Some(e)
  {
    RenderStripped(e);
    RenderCut(e);
    RenderNotComment(e);
    StripTrimmed(e.key);
    StripTrimmed(e.value);
    ParseStrippedAt(Render(e), |e.key|, e);
  }

  /** The line written for an entry is cut right after the key. */
  lemma RenderCut(e: Entry)
    requires '=' !in e.key
    ensures IndexOf(Render(e), '=') == Some(|e.key|)
    ensures Render(e)[..|e.key|] == e.key && Render(e)[|e.key| + 1..] == e.value
  {
    var line := Render(e);
    var k := |e.key|;
    assert line[..k] == e.key && line[k] == '=' && line[k + 1..] == e.value;
    IndexOfAfter(e.key, '=', line);
  }

  lemma RenderNotComment(e: Entry)
    requires !StartsWith(e.key, "#")
    ensures Render(e) != "" && !StartsWith(Render(e), "#")
  {
    var line := Render(e);
    var k := |e.key|;
    if k > 0 { assert line[..1] == e.key[..1]; } else { assert line[0] == '='; }
  }

  /** A stripped line that is not a comment, cut at its first `=`. */
  lemma ParseStrippedAt(s: string, i: nat, e: Entry)
    requires s != "" && !StartsWith(s, "#") && IndexOf(s, '=') == Some(i)
    requires Strip(s[..i]) == e.key && Strip(s[i + 1..]) == e.value
    ensures ParseStripped(s) == Some(e)
  {
  }

  lemma RenderStripped(e: Entry)
    requires Trimmed(e.key) && Trimmed(e.value)
    ensures Strip(Render(e)) == Render(e)
  {
    var line := Render(e);
    var k := |e.key|;
    assert Trimmed(line) by {
      if k > 0 { assert line[0] == e.key[0]; }
      if |e.value| > 0 { assert line[|line| - 1] == e.value[|e.value| - 1]; }
    }
    StripTrimmed(line);
  }

  /** A line whose first character is `#` is a comment, whatever follows. */
  lemma CommentIgnored(rest: string)
    ensures ParseLine("#" + rest) == None
  {
    var line := "#" + rest;
    assert line[0] == '#';
    StripKeepsHead(line);
    CommentStripped(Strip(line));
  }

  lemma CommentStripped(s: string)
    requires |s| > 0 && s[0] == '#'
    ensures ParseStripped(s) == None
  {
    assert s[..1] == "#";
  }
}
