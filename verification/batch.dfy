/** `main`: read the settings, run every account in turn, and summarise.
    The process exits with 1 when no account is configured; otherwise it
    exits with 0 exactly when every account succeeded. When Telegram is
    configured a summary message is built. */
module Batch {
  import opened Results
  import opened Text
  import opened Config
  import opened Accounts
  import opened Sessions
  import opened Keeper

  /** The module-level settings read from the `.env` dictionary. */
  datatype Settings = Settings(apiKey: string, accounts: seq<Account>, botToken: string, chatId: string)

  function Configure(env: map<string, string>): Settings {
    Settings(
      Lookup(env, "YESCAPTCHA_API_KEY", ""),
      ParseAccounts(Lookup(env, "ACCOUNTS", "")),
      Lookup(env, "TELEGRAM_BOT_TOKEN", ""),
      Lookup(env, "TELEGRAM_CHAT_ID", ""))
  }

  /** The accounts come from the last `ACCOUNTS` line of the file, and are
      none when no line sets it. */
  lemma AccountsFromLastLine(lines: seq<string>, value: string)
    ensures (forall i :: 0 <= i < |lines| ==> !Sets(ParseLine(lines[i]), "ACCOUNTS"))
            ==> Configure(LoadEnv(lines)).accounts == []
    ensures (exists i :: 0 <= i < |lines| && ParseLine(lines[i]) == Some(Entry("ACCOUNTS", value))
                         && forall j :: i < j < |lines| ==> !Sets(ParseLine(lines[j]), "ACCOUNTS"))
            ==> Configure(LoadEnv(lines)).accounts == ParseAccounts(value)
  {
    LookupLastLine(lines, "ACCOUNTS", value, "");
  }

  /** `TelegramNotifier.enabled`. */
  predicate TelegramEnabled(s: Settings) {
    s.botToken != "" && s.chatId != ""
  }

  /** One entry of `results`. */
  datatype Report = Report(email: string, success: bool)

  datatype BatchOutcome = BatchOutcome(reports: seq<Report>, store: Store)

  /** What one iteration of the loop does for an account, given the session
      files the earlier iterations left and what the browser shows. */
  type Pass = (Account, Store, RunScene) -> RunOutcome

  /** The `for` loop over the accounts, in order; each pass sees the session
      files the earlier ones left, and its verdict is reported under the
      account's email. */
  function Loop(accounts: seq<Account>, store: Store, scenes: seq<RunScene>, pass: Pass): (b: BatchOutcome)
    requires |scenes| == |accounts|
    ensures |b.reports| == |accounts|
    ensures forall i :: 0 <= i < |accounts| ==> b.reports[i].email == accounts[i].email
  {
    if |accounts| == 0 then BatchOutcome([], store)
    else
      var first := pass(accounts[0], store, scenes[0]);
      var rest := Loop(accounts[1..], first.store, scenes[1..], pass);
      BatchOutcome([Report(accounts[0].email, first.ok)] + rest.reports, rest.store)
  }

  /** `ZapKeepAlive(email, password, api_key).run()` for one account. */
  function RunPass(apiKey: string): (p: Pass) {
    (a: Account, store: Store, scene: RunScene) => Run(a.email, a.password, apiKey, store, scene)
  }

  /** The loop of `main()` with the script's own pass. */
  function RunAll(accounts: seq<Account>, apiKey: string, store: Store, scenes: seq<RunScene>): (b: BatchOutcome)
    requires |scenes| == |accounts|
    ensures |b.reports| == |accounts|
    ensures forall i :: 0 <= i < |accounts| ==> b.reports[i].email == accounts[i].email
  {
    Loop(accounts, store, scenes, RunPass(apiKey))
  }

  /** No successful account has file name `name`. */
  predicate Untouched(accounts: seq<Account>, reports: seq<Report>, name: string)
    requires |reports| == |accounts|
  {
    forall i :: 0 <= i < |accounts| && reports[i].success ==> FileName(accounts[i].email) != name
  }

  /** The file `name` is the same in both stores. */
  predicate Kept(before: Store, after: Store, name: string) {
    (name in after <==> name in before) && (name in before ==> after[name] == before[name])
  }

  lemma UntouchedTail(accounts: seq<Account>, reports: seq<Report>, tail: seq<Report>, name: string)
    requires |accounts| > 0 && |reports| == |accounts| && reports[1..] == tail
    requires Untouched(accounts, reports, name)
    ensures Untouched(accounts[1..], tail, name)
    ensures reports[0].success ==> FileName(accounts[0].email) != name
  {
    forall i | 0 <= i < |accounts| - 1 && tail[i].success
      ensures FileName(accounts[1..][i].email) != name
    {
      assert reports[i + 1] == tail[i];
    }
  }

  /** One pass keeps every file but the one a success saves. */
  lemma PassKeeps(store: Store, email: string, jar: seq<Cookie>, ok: bool, after: Store, name: string)
    requires ok ==> after == Save(store, email, jar) && FileName(email) != name
    requires !ok ==> after == store
    ensures Kept(store, after, name)
  {
  }

  /** A pass that, like `run()`, saves the session exactly when it succeeds
      and otherwise leaves the session files alone. */
  ghost predicate SavesOnSuccess(pass: Pass) {
    forall a, store, scene :: (pass(a, store, scene).ok ==> pass(a, store, scene).store == Save(store, a.email, scene.jar))
                              && (!pass(a, store, scene).ok ==> pass(a, store, scene).store == store)
  }

  lemma RunPassSaves(apiKey: string)
    ensures SavesOnSuccess(RunPass(apiKey))
  {
  }

  /** With such a pass, every file no successful account is named after is
      as it was before the loop. */
  lemma {:induction false} LoopKeeps(accounts: seq<Account>, store: Store, scenes: seq<RunScene>, pass: Pass, name: string)
    requires |scenes| == |accounts| && SavesOnSuccess(pass)
    requires Untouched(accounts, Loop(accounts, store, scenes, pass).reports, name)
    ensures Kept(store, Loop(accounts, store, scenes, pass).store, name)
  {
    if |accounts| > 0 {
      var first := pass(accounts[0], store, scenes[0]);
      var rest := Loop(accounts[1..], first.store, scenes[1..], pass);
      var reports := Loop(accounts, store, scenes, pass).reports;
      assert reports == [Report(accounts[0].email, first.ok)] + rest.reports;
      PassKeeps(store, accounts[0].email, scenes[0].jar, first.ok, first.store, name);
      UntouchedTail(accounts, reports, rest.reports, name);
      LoopKeeps(accounts[1..], first.store, scenes[1..], pass, name);
    }
  }

  /** Only successful accounts write session files: every other file is as
      it was before the batch. */
  lemma OnlySuccessesSave(accounts: seq<Account>, apiKey: string, store: Store, scenes: seq<RunScene>, name: string)
    requires |scenes| == |accounts|
    requires Untouched(accounts, RunAll(accounts, apiKey, store, scenes).reports, name)
    ensures Kept(store, RunAll(accounts, apiKey, store, scenes).store, name)
  {
    RunPassSaves(apiKey);
    LoopKeeps(accounts, store, scenes, RunPass(apiKey), name);
  }

  /** The number of successful reports. */
  function SuccessCount(reports: seq<Report>): (k: nat)
    ensures k <= |reports|
  {
    if |reports| == 0 then 0
    else (if reports[0].success then 1 else 0) + SuccessCount(reports[1..])
  }

  /** The count adds up over the reports: one for a success, none for a
      failure. */
  lemma {:induction false} SuccessCountAppend(a: seq<Report>, b: seq<Report>)
    ensures SuccessCount(a + b) == SuccessCount(a) + SuccessCount(b)
    ensures forall r :: SuccessCount([r]) == if r.success then 1 else 0
  {
    if |a| == 0 {
      assert a + b == b;
    } else {
      assert (a + b)[1..] == a[1..] + b;
      SuccessCountAppend(a[1..], b);
    }
    forall r ensures SuccessCount([r]) == if r.success then 1 else 0 {
      assert [r][1..] == [];
    }
  }

  /** The count is the length exactly when all succeeded, and zero exactly
      when none did. */
  lemma {:induction false} SuccessCountBounds(reports: seq<Report>)
    ensures SuccessCount(reports) == |reports| <==> forall i :: 0 <= i < |reports| ==> reports[i].success
    ensures SuccessCount(reports) == 0 <==> forall i :: 0 <= i < |reports| ==> !reports[i].success
  {
    if |reports| > 0 {
      SuccessCountBounds(reports[1..]);
      assert forall i :: 1 <= i < |reports| ==> reports[i] == reports[1..][i - 1];
    }
  }

  /** Which title the summary gets. */
  datatype Verdict = AllSucceeded | SomeSucceeded | NoneSucceeded

  function VerdictOf(reports: seq<Report>): Verdict {
    var k := SuccessCount(reports);
    if k == |reports| then AllSucceeded
    else if k > 0 then SomeSucceeded
    else NoneSucceeded
  }

  /** For a non-empty batch the title says "all" when every account
      succeeded, "none" when none did, and "partial" otherwise. */
  lemma VerdictMeaning(reports: seq<Report>)
    requires |reports| > 0
    ensures VerdictOf(reports) == AllSucceeded <==> forall i :: 0 <= i < |reports| ==> reports[i].success
    ensures VerdictOf(reports) == NoneSucceeded <==> forall i :: 0 <= i < |reports| ==> !reports[i].success
    ensures VerdictOf(reports) == SomeSucceeded <==>
              (exists i :: 0 <= i < |reports| && reports[i].success)
              && (exists i :: 0 <= i < |reports| && !reports[i].success)
  {
    SuccessCountBounds(reports);
    if VerdictOf(reports) == AllSucceeded {
      assert reports[0].success;
    }
  }

  function Emoji(v: Verdict): string {
    match v
    case AllSucceeded => "\U{2705}"
    case SomeSucceeded => "\U{26A0}\U{FE0F}"
    case NoneSucceeded => "\U{274C}"
  }

  function Title(v: Verdict): string {
    match v
    case AllSucceeded => "ZAP \U{4FDD}\U{6D3B}\U{6210}\U{529F}"
    case SomeSucceeded => "ZAP \U{4FDD}\U{6D3B}\U{90E8}\U{5206}\U{6210}\U{529F}"
    case NoneSucceeded => "ZAP \U{4FDD}\U{6D3B}\U{5931}\U{8D25}"
  }

  /** The per-account line of the message. */
  function StatusLine(r: Report): string {
    (if r.success then "\U{2705}" else "\U{274C}") + " " + r.email
  }

  /** The decimal digits of a count, as Python's `str` writes it. */
  function Decimal(n: nat): (s: string)
    ensures |s| >= 1 && forall i :: 0 <= i < |s| ==> '0' <= s[i] <= '9'
    ensures |s| > 1 ==> s[0] != '0'
  {
    if n < 10 then [('0' as int + n) as char]
    else Decimal(n / 10) + [('0' as int + n % 10) as char]
  }

  /** The value of a string of decimal digits. */
  function DigitsValue(s: string): nat
    requires forall i :: 0 <= i < |s| ==> '0' <= s[i] <= '9'
  {
    if |s| == 0 then 0
    else 10 * DigitsValue(s[..|s| - 1]) + (s[|s| - 1] as int - '0' as int)
  }

  /** Reading the digits back gives the count. */
  lemma {:induction false} DecimalValue(n: nat)
    ensures DigitsValue(Decimal(n)) == n
  {
    if n >= 10 {
      DecimalValue(n / 10);
      var s := Decimal(n);
      assert s[..|s| - 1] == Decimal(n / 10);
    }
  }

  /** `msg_lines`: the heading, a blank line, one line per account in
      order, a blank line, the count and the time. */
  function MessageLines(reports: seq<Report>, now: string): (lines: seq<string>)
    ensures |lines| == |reports| + 5
    ensures forall i :: 0 <= i < |reports| ==> lines[i + 2] == StatusLine(reports[i])
    ensures lines[0] == Emoji(VerdictOf(reports)) + " <b>" + Title(VerdictOf(reports)) + "</b>"
    ensures lines[1] == "" && lines[|reports| + 2] == ""
    ensures lines[|reports| + 3]
            == "\U{1F4CA} \U{7ED3}\U{679C}: " + Decimal(SuccessCount(reports)) + "/" + Decimal(|reports|) + " \U{6210}\U{529F}"
    ensures lines[|reports| + 4] == "\U{1F552} \U{65F6}\U{95F4}: " + now
  {
    var v := VerdictOf(reports);
    var k := SuccessCount(reports);
    var statuses := seq(|reports|, i requires 0 <= i < |reports| => StatusLine(reports[i]));
    [Emoji(v) + " <b>" + Title(v) + "</b>", ""]
      + statuses
      + ["",
         "\U{1F4CA} \U{7ED3}\U{679C}: " + Decimal(k) + "/" + Decimal(|reports|) + " \U{6210}\U{529F}",
         "\U{1F552} \U{65F6}\U{95F4}: " + now]
  }

  datatype MainOutcome = MainOutcome(exitCode: int, reports: seq<Report>, store: Store, message: Option<seq<string>>)

  /** `main()` and the exit status the script ends with. */
  function Main(settings: Settings, store: Store, scenes: seq<RunScene>, now: string): (m: MainOutcome)
    requires |scenes| == |settings.accounts|
    ensures |settings.accounts| == 0 ==> m == MainOutcome(1, [], store, None)
    ensures |m.reports| == |settings.accounts|
    ensures m.exitCode == 0 || m.exitCode == 1
    ensures m.exitCode == 0 <==> |settings.accounts| > 0 && forall i :: 0 <= i < |m.reports| ==> m.reports[i].success
    ensures m.message.Some? <==> |settings.accounts| > 0 && TelegramEnabled(settings)
    ensures m.message.Some? ==> m.message.value == MessageLines(m.reports, now)
    ensures |settings.accounts| > 0 ==>
              m.reports == RunAll(settings.accounts, settings.apiKey, store, scenes).reports
              && m.store == RunAll(settings.accounts, settings.apiKey, store, scenes).store
  {
    if |settings.accounts| == 0 then MainOutcome(1, [], store, None)
    else
      var b := RunAll(settings.accounts, settings.apiKey, store, scenes);
      SuccessCountBounds(b.reports);
      var ok := SuccessCount(b.reports) == |b.reports|;
      var message := if TelegramEnabled(settings) then Some(MessageLines(b.reports, now)) else None;
      MainOutcome(if ok then 0 else 1, b.reports, b.store, message)
  }

  /** Each report is the verdict of that account's own pass, run against the
      store the passes before it left. */
  lemma {:induction false} LoopReport(accounts: seq<Account>, store: Store, scenes: seq<RunScene>, pass: Pass, i: nat)
    requires |scenes| == |accounts| && i < |accounts|
    ensures Loop(accounts, store, scenes, pass).reports[i].success
            == pass(accounts[i], Loop(accounts[..i], store, scenes[..i], pass).store, scenes[i]).ok
  {
    var first := pass(accounts[0], store, scenes[0]);
    if i > 0 {
      LoopReport(accounts[1..], first.store, scenes[1..], pass, i - 1);
      assert accounts[..i][1..] == accounts[1..][..i - 1] && accounts[..i][0] == accounts[0];
      assert scenes[..i][1..] == scenes[1..][..i - 1] && scenes[..i][0] == scenes[0];
      assert accounts[1..][i - 1] == accounts[i] && scenes[1..][i - 1] == scenes[i];
    }
  }

  /** Report `i` of `main`'s loop is the verdict of account `i`'s own
      `run()`, against the session files the accounts before it left. */
  lemma ReportIsRun(accounts: seq<Account>, apiKey: string, store: Store, scenes: seq<RunScene>)
    requires |scenes| == |accounts|
    ensures forall i :: 0 <= i < |accounts| ==>
              RunAll(accounts, apiKey, store, scenes).reports[i].success
              == Run(accounts[i].email, accounts[i].password, apiKey,
                     RunAll(accounts[..i], apiKey, store, scenes[..i]).store, scenes[i]).ok
  {
    forall i | 0 <= i < |accounts|
      ensures RunAll(accounts, apiKey, store, scenes).reports[i].success
              == Run(accounts[i].email, accounts[i].password, apiKey,
                     RunAll(accounts[..i], apiKey, store, scenes[..i]).store, scenes[i]).ok
    {
      LoopReport(accounts, store, scenes, RunPass(apiKey), i);
    }
  }

  /** The script exits with 0 exactly when there are accounts and every
      account's own `run()`, against the session files the accounts before
      it left, returned true. */
  lemma MainExit(settings: Settings, store: Store, scenes: seq<RunScene>, now: string)
    requires |scenes| == |settings.accounts|
    ensures var accts := settings.accounts;
            Main(settings, store, scenes, now).exitCode == 0 <==>
              |accts| > 0
              && forall i :: 0 <= i < |accts| ==>
                   Run(accts[i].email, accts[i].password, settings.apiKey,
                       RunAll(accts[..i], settings.apiKey, store, scenes[..i]).store, scenes[i]).ok
  {
    ReportIsRun(settings.accounts, settings.apiKey, store, scenes);
  }
}
