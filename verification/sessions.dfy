/** `get_session_file` and the saved-session store. The file name of an
    account is its email with `@` replaced by `_at_`, then `.` replaced by
    `_`, followed by `.json`. The mapping forgets which underscores were
    dots, so two accounts can share one session file. */
module Sessions {
  import opened Results
  import opened Text

  /** The file name without its `.json` extension. */
  function Stem(email: string): (r: string)
    ensures '@' !in r && '.' !in r
    ensures forall d :: d in email && d != '@' && d != '.' ==> d in r
  {
    var noAt := ReplaceChar(email, '@', "_at_");
    assert '@' !in "_";
    ReplaceChar(noAt, '.', "_")
  }

  /** The session file name of an account. */
  function FileName(email: string): (r: string)
    ensures |r| >= 5 && r[|r| - 5..] == ".json"
    ensures '@' !in r
    ensures r[..|r| - 5] == Stem(email) && '.' !in r[..|r| - 5]
  {
    var s := Stem(email);
    var r := s + ".json";
    assert r[..|r| - 5] == s && r[|r| - 5..] == ".json";
    assert '@' !in ".json";
    r
  }

  /** Equal file names come from equal stems: the extension adds nothing. */
  lemma FileNameStem(e1: string, e2: string)
    ensures FileName(e1) == FileName(e2) <==> Stem(e1) == Stem(e2)
  {
    if FileName(e1) == FileName(e2) {
      assert Stem(e1) == FileName(e1)[..|FileName(e1)| - 5];
    }
  }

  lemma StemAppend(a: string, b: string)
    ensures Stem(a + b) == Stem(a) + Stem(b)
  {
    ReplaceCharAppend(a, b, '@', "_at_");
    ReplaceCharAppend(ReplaceChar(a, '@', "_at_"), ReplaceChar(b, '@', "_at_"), '.', "_");
  }

  lemma StemDot()
    ensures Stem(".") == "_"
  {
    assert ReplaceChar(".", '@', "_at_") == ".";
    assert ReplaceChar(".", '.', "_") == "_" + ReplaceChar("", '.', "_");
  }

  lemma StemUnderscore()
    ensures Stem("_") == "_"
  {
    assert ReplaceChar("_", '@', "_at_") == "_";
    assert ReplaceChar("_", '.', "_") == "_";
  }

  lemma StemAt()
    ensures Stem("@") == "_at_"
  {
    assert ReplaceChar("@", '@', "_at_") == "_at_" + ReplaceChar("", '@', "_at_");
    assert ReplaceChar("_at_", '.', "_") == "_at_";
  }

  lemma StemAtSpelledOut()
    ensures Stem("_at_") == "_at_"
  {
    assert ReplaceChar("_at_", '@', "_at_") == "_at_";
    assert ReplaceChar("_at_", '.', "_") == "_at_";
  }

  /** A dot and an underscore at the same place give the same file. */
  lemma DotUnderscoreCollide(u: string, v: string)
    ensures FileName(u + "." + v) == FileName(u + "_" + v)
  {
    StemAppend(u + ".", v);
    StemAppend(u, ".");
    StemAppend(u + "_", v);
    StemAppend(u, "_");
    StemDot();
    StemUnderscore();
  }

  /** An `@` and the text `_at_` at the same place give the same file. */
  lemma AtSpelledOutCollide(u: string, v: string)
    ensures FileName(u + "@" + v) == FileName(u + "_at_" + v)
  {
    StemAppend(u + "@", v);
    StemAppend(u, "@");
    StemAppend(u + "_at_", v);
    StemAppend(u, "_at_");
    StemAt();
    StemAtSpelledOut();
  }

  /** The naming is not injective: distinct emails share a file name. */
  lemma NotInjective()
    ensures exists e1, e2 :: e1 != e2 && FileName(e1) == FileName(e2)
  {
    var e1 := "a" + "." + "b@x";
    var e2 := "a" + "_" + "b@x";
    assert e1[1] != e2[1];
    DotUnderscoreCollide("a", "b@x");
  }

  /** A browser cookie as the session file stores it. */
  datatype Cookie = Cookie(name: string, value: string, domain: string, path: string)

  /** A session file on disk: the saved cookie list, or content that does
      not load back (unreadable or not a cookie list). */
  datatype StoredFile = Saved(jar: seq<Cookie>) | Unreadable

  /** The session directory, by file name. */
  type Store = map<string, StoredFile>

  /** `save_session`: the account's file now holds the cookie list. */
  function Save(store: Store, email: string, jar: seq<Cookie>): (r: Store)
    ensures r.Keys == store.Keys + {FileName(email)}
  {
    store[FileName(email) := Saved(jar)]
  }

  /** `load_session`: the cookies of a file that exists and loads; `None`
      when the file is missing or fails to load. */
  function Load(store: Store, email: string): (r: Option<seq<Cookie>>)
    ensures r.Some? ==> FileName(email) in store
    ensures FileName(email) !in store ==> r == None
  {
    var name := FileName(email);
    if name in store then
      match store[name]
      case Saved(jar) => Some(jar)
      case Unreadable => None
    else None
  }

  /** What is saved for an account loads back. */
  lemma LoadSave(store: Store, email: string, jar: seq<Cookie>)
    ensures Load(Save(store, email, jar), email) == Some(jar)
  {
  }

  /** Saving for one account leaves the session of every account with a
      different file name untouched. */
  lemma LoadSaveOther(store: Store, e1: string, e2: string, jar: seq<Cookie>)
    requires FileName(e1) != FileName(e2)
    ensures Load(Save(store, e1, jar), e2) == Load(store, e2)
  {
  }

  /** A later save for an account replaces the earlier one. */
  lemma SaveOverwrites(store: Store, email: string, jar1: seq<Cookie>, jar2: seq<Cookie>)
    ensures Save(Save(store, email, jar1), email, jar2) == Save(store, email, jar2)
  {
  }

  /** Two accounts whose emails differ only in a dot versus an underscore
      read each other's saved sessions. */
  lemma SessionShared(store: Store, u: string, v: string, jar: seq<Cookie>)
    ensures Load(Save(store, u + "." + v, jar), u + "_" + v) == Some(jar)
  {
    DotUnderscoreCollide(u, v);
  }
}
