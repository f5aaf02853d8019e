/** `parse_accounts`: the `ACCOUNTS` setting is a comma-separated list of
    `email:password` items. Items without `:` are dropped; the others are cut
    at their first `:` and both halves are stripped. */
module Accounts {
  import opened Results
  import opened Text

  datatype Account = Account(email: string, password: string)

  /** One comma-separated item: kept when its stripped text contains `:`. */
  function ParseItem(item: string): (r: Option<Account>)
    ensures r.Some? <==> ':' in Strip(item)
    ensures r.Some? ==> ':' !in r.value.email && Trimmed(r.value.email) && Trimmed(r.value.password)
  {
    var s := Strip(item);
    match IndexOf(s, ':')
    case None => None
    case Some(i) =>
      var a := Account(Strip(s[..i]), Strip(s[i + 1..]));
      assert ':' !in a.email by {
        if ':' in a.email { StripKeepsChars(s[..i], ':'); }
      }
      Some(a)
  }

  /** `a` is what cutting `s` at its first `:` and stripping both halves
      gives. */
  predicate CutAtFirstColon(s: string, a: Account) {
    exists i :: 0 <= i < |s| && s[i] == ':' && ':' !in s[..i] && a == Account(Strip(s[..i]), Strip(s[i + 1..]))
  }

  /** The account an item gives is its stripped text cut at the first `:`,
      with both halves stripped again. */
  lemma ParseItemCut(item: string)
    requires ParseItem(item).Some?
    ensures CutAtFirstColon(Strip(item), ParseItem(item).value)
  {
    var s := Strip(item);
    var i := IndexOf(s, ':').value;
    var a := ParseItem(item).value;
    assert a == Account(Strip(s[..i]), Strip(s[i + 1..]));
    assert s[i] == ':' && ':' !in s[..i];
  }

  /** An item without `,` gives an account without `,`. */
  lemma ParseItemNoComma(item: string)
    requires ',' !in item && ParseItem(item).Some?
    ensures ',' !in ParseItem(item).value.email && ',' !in ParseItem(item).value.password
  {
    var s := Strip(item);
    var i := IndexOf(s, ':').value;
    var a := ParseItem(item).value;
    if ',' in a.email { StripKeepsChars(s[..i], ','); StripKeepsChars(item, ','); }
    if ',' in a.password { StripKeepsChars(s[i + 1..], ','); StripKeepsChars(item, ','); }
  }

  /** An account as `parse_accounts` can return it: both fields stripped, and
      neither holding a `,`; the email holds no `:` either. */
  predicate WellFormed(a: Account) {
    && ':' !in a.email && ',' !in a.email && ',' !in a.password
    && Trimmed(a.email) && Trimmed(a.password)
  }

  /** The kept items, in order. */
  function ParseItems(items: seq<string>): (accts: seq<Account>)
    ensures |accts| <= |items|
  {
    if |items| == 0 then []
    else
      var rest := ParseItems(items[1..]);
      match ParseItem(items[0])
      case None => rest
      case Some(a) => [a] + rest
  }

  lemma {:induction false} ParseItemsWellFormed(items: seq<string>)
    requires forall i :: 0 <= i < |items| ==> ',' !in items[i]
    ensures forall i :: 0 <= i < |ParseItems(items)| ==> WellFormed(ParseItems(items)[i])
  {
    if |items| > 0 {
      assert forall i :: 0 <= i < |items| - 1 ==> items[1..][i] == items[i + 1];
      ParseItemsWellFormed(items[1..]);
      if ParseItem(items[0]).Some? {
        ParseItemNoComma(items[0]);
        ParseItemsKept(items);
        WellFormedCons(ParseItem(items[0]).value, ParseItems(items[1..]));
      } else {
        ParseItemsDropped(items);
      }
    }
  }

  lemma WellFormedCons(a: Account, rest: seq<Account>)
    requires WellFormed(a)
    requires forall i :: 0 <= i < |rest| ==> WellFormed(rest[i])
    ensures forall i :: 0 <= i < |[a] + rest| ==> WellFormed(([a] + rest)[i])
  {
    var accts := [a] + rest;
    forall i | 0 <= i < |accts| ensures WellFormed(accts[i]) {
      if i == 0 { assert accts[i] == a; } else { assert accts[i] == rest[i - 1]; }
    }
  }

  lemma ParseItemsKept(items: seq<string>)
    requires |items| > 0 && ParseItem(items[0]).Some?
    ensures ParseItems(items) == [ParseItem(items[0]).value] + ParseItems(items[1..])
  {
  }

  lemma ParseItemsDropped(items: seq<string>)
    requires |items| > 0 && ParseItem(items[0]).None?
    ensures ParseItems(items) == ParseItems(items[1..])
  {
  }

  /** `parse_accounts`. */
  function ParseAccounts(s: string): (accts: seq<Account>)
    ensures s == "" ==> accts == []
    ensures |accts| <= |Split(s, ',')|
    ensures forall i :: 0 <= i < |accts| ==> WellFormed(accts[i])
  {
    if s == "" then []
    else
      ParseItemsWellFormed(Split(s, ','));
      ParseItems(Split(s, ','))
  }

  lemma {:induction false} ParseItemsAppend(x: seq<string>, y: seq<string>)
    ensures ParseItems(x + y) == ParseItems(x) + ParseItems(y)
  {
    if |x| == 0 {
      assert x + y == y;
    } else {
      var xy := x + y;
      assert xy[0] == x[0];
      assert xy[1..] == x[1..] + y;
      ParseItemsAppend(x[1..], y);
    }
  }

  /** Accounts are read in the order they are listed: the accounts of
      `a,b` are those of `a` followed by those of `b`. */
  lemma ParseAccountsAppend(a: string, b: string)
    ensures ParseAccounts(a + "," + b) == ParseAccounts(a) + ParseAccounts(b)
  {
    var s := a + "," + b;
    assert s == a + [','] + b;
    SplitAppend(a, b, ',');
    ParseItemsAppend(Split(a, ','), Split(b, ','));
    assert ParseItem("") == None;
    if a == "" {
      assert Split(a, ',') == [""];
    }
    if b == "" {
      assert Split(b, ',') == [""];
    }
  }

  /** A single item is one account when its stripped text contains `:`, and
      none otherwise. */
  lemma ParseAccountsSingle(item: string)
    requires ',' !in item
    ensures ParseAccounts(item) == match ParseItem(item)
                                   case None => []
                                   case Some(a) => [a]
  {
    SplitNoSeparator(item, ',');
    if item == "" {
      assert ParseItem(item) == None;
    }
  }

  /** The `email:password` item written for an account. */
  function RenderItem(a: Account): string {
    a.email + ":" + a.password
  }

  /** The `ACCOUNTS` setting written for a list of accounts. */
  function Render(accts: seq<Account>): string {
    if |accts| == 0 then ""
    else if |accts| == 1 then RenderItem(accts[0])
    else RenderItem(accts[0]) + "," + Render(accts[1..])
  }

  lemma ParseRenderItem(a: Account)
    requires WellFormed(a)
    ensures ParseAccounts(RenderItem(a)) == [a]
  {
    var item := RenderItem(a);
    assert ',' !in item;
    ParseItemRender(a);
    ParseAccountsSingle(item);
  }

  lemma ParseItemRender(a: Account)
    requires WellFormed(a)
    ensures ParseItem(RenderItem(a)) == Some(a)
  {
    var item := RenderItem(a);
    var k := |a.email|;
    assert item[..k] == a.email && item[k] == ':' && item[k + 1..] == a.password;
    RenderItemTrimmed(a);
    IndexOfAfter(a.email, ':', item);
    StripTrimmed(a.email);
    StripTrimmed(a.password);
  }

  lemma RenderItemTrimmed(a: Account)
    requires Trimmed(a.email) && Trimmed(a.password)
    ensures Strip(RenderItem(a)) == RenderItem(a)
  {
    var item := RenderItem(a);
    var k := |a.email|;
    assert Trimmed(item) by {
      if k > 0 { assert item[0] == a.email[0]; }
      if |a.password| > 0 { assert item[|item| - 1] == a.password[|a.password| - 1]; }
    }
    StripTrimmed(item);
  }

  /** Writing well-formed accounts out as an `ACCOUNTS` setting and parsing it
      gives them back, in order. */
  lemma {:induction false} ParseRender(accts: seq<Account>)
    requires forall i :: 0 <= i < |accts| ==> WellFormed(accts[i])
    ensures ParseAccounts(Render(accts)) == accts
  {
    if |accts| == 1 {
      ParseRenderItem(accts[0]);
    } else if |accts| > 1 {
      WellFormedTail(accts);
      ParseRender(accts[1..]);
      ParseRenderItem(accts[0]);
      ParseRenderCons(accts);
    }
  }

  lemma WellFormedTail(accts: seq<Account>)
    requires |accts| > 0 && forall i :: 0 <= i < |accts| ==> WellFormed(accts[i])
    ensures forall i :: 0 <= i < |accts[1..]| ==> WellFormed(accts[1..][i])
  {
    assert forall i :: 0 <= i < |accts| - 1 ==> accts[1..][i] == accts[i + 1];
  }

  lemma ParseRenderCons(accts: seq<Account>)
    requires |accts| > 1
    requires ParseAccounts(RenderItem(accts[0])) == [accts[0]]
    requires ParseAccounts(Render(accts[1..])) == accts[1..]
    ensures ParseAccounts(Render(accts)) == accts
  {
    RenderCons(accts);
    ParseJoined(RenderItem(accts[0]), Render(accts[1..]), [accts[0]], accts[1..]);
    assert accts == [accts[0]] + accts[1..];
  }

  lemma RenderCons(accts: seq<Account>)
    requires |accts| > 1
    ensures Render(accts) == RenderItem(accts[0]) + "," + Render(accts[1..])
  {
  }

  lemma ParseJoined(x: string, y: string, xs: seq<Account>, ys: seq<Account>)
    requires ParseAccounts(x) == xs && ParseAccounts(y) == ys
    ensures ParseAccounts(x + "," + y) == xs + ys
  {
    ParseAccountsAppend(x, y);
  }
}
