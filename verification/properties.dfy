/** What the handler promises about the ledger, stated over `Bot.Step` and
    `Bot.Run`. */
module Properties {
  import opened Ledger
  import opened Bot

  /** The invocation is a mutating command that gets past its admin check,
      its option reads and its funds check, so it writes to the store. */
  predicate Accepted(admins: set<UserId>, s: State, inv: Invocation)
  {
    || (&& inv.name in {"addcoins", "removecoins"}
        && inv.caller in admins && inv.options.user.Some? && inv.options.amount.Some?)
    || (&& inv.name == "usecoins" && inv.options.amount.Some?
        && BalanceOf(s, Key(inv.guild, inv.caller)) >= inv.options.amount.value)
  }

  /** An admin `removecoins` whose amount exceeds the target's balance, so
      the floor at 0 cuts the actual decrease short. */
  predicate Clamps(admins: set<UserId>, s: State, inv: Invocation)
  {
    && inv.name == "removecoins" && inv.caller in admins
    && inv.options.user.Some? && inv.options.amount.Some?
    && BalanceOf(s, Key(inv.guild, inv.options.user.value)) < inv.options.amount.value
  }

  /** Every balance is at least the sum its log entries record. */
  ghost predicate BalanceCoversLog(s: State)
  {
    forall k :: BalanceOf(s, k) >= LogSum(s.log, k)
  }

  /** Every balance is exactly the sum its log entries record. */
  ghost predicate LogMatchesBalance(s: State)
  {
    forall k :: BalanceOf(s, k) == LogSum(s.log, k)
  }

  /** `balance` shows the stored value, or 0 when the caller has no row, and
      writes nothing (no row is created either). */
  lemma BalanceReadsStoredOrZero(admins: set<UserId>, s: State, inv: Invocation)
    requires inv.name == "balance"
    ensures Step(admins, s, inv).state == s
    ensures var k := Key(inv.guild, inv.caller);
      Step(admins, s, inv).reply == YourBalance(if k in s.balances then s.balances[k] else 0)
  {
  }

  /** Asking for the balance twice in a row gives the same answer. */
  lemma BalanceIsIdempotent(admins: set<UserId>, s: State, inv: Invocation)
    requires inv.name == "balance"
    ensures Step(admins, Step(admins, s, inv).state, inv) == Step(admins, s, inv)
  {
  }

  /** `checkcoins` by an admin shows the target's stored value or 0 and
      writes nothing. */
  lemma CheckCoinsReadsTarget(admins: set<UserId>, s: State, inv: Invocation)
    requires inv.name == "checkcoins" && inv.caller in admins && inv.options.user.Some?
    ensures Step(admins, s, inv).state == s
    ensures var k := Key(inv.guild, inv.options.user.value);
      Step(admins, s, inv).reply == UserBalance(k.user, if k in s.balances then s.balances[k] else 0)
  {
  }

  /** A caller outside the admin list gets the refusal of the command it
      tried, whatever options it passed, and nothing is written. */
  lemma NonAdminIsDenied(admins: set<UserId>, s: State, inv: Invocation)
    requires IsAdminCommand(inv.name) && inv.caller !in admins
    ensures Step(admins, s, inv).state == s
    ensures Step(admins, s, inv).reply ==
      Denied(if inv.name in {"addcoins", "removecoins"} then NoPermission else AdminsOnly)
  {
  }

  /** A `removecoins` that clamps logs the full `-amount` although the
      balance fell by less: the log and the balance part ways. */
  lemma RemoveCoinsLogsFullAmount(admins: set<UserId>, s: State, inv: Invocation)
    requires Clamps(admins, s, inv)
    ensures var out := Step(admins, s, inv);
      var k := Key(inv.guild, inv.options.user.value);
      && BalanceOf(out.state, k) == 0
      && out.state.log[|s.log|].amount == -inv.options.amount.value
      && out.state.log[|s.log|].amount < BalanceOf(out.state, k) - BalanceOf(s, k)
  {
  }

  /** Without an explicit reason, or with an empty one, the entry records
      "<command> by admin" or "used by user"; a non-empty reason is kept. */
  lemma RecordedReason(admins: set<UserId>, s: State, inv: Invocation)
    requires Accepted(admins, s, inv)
    ensures var r := Step(admins, s, inv).state.log[|s.log|].reason;
      && (inv.options.reason.Some? && inv.options.reason.value != "" ==> r == inv.options.reason.value)
      && (inv.options.reason.None? || inv.options.reason.value == "" ==>
            r == if inv.name == "usecoins" then "used by user" else inv.name + " by admin")
  {
  }

  /** The state changes exactly when a mutating command is accepted, and
      then by exactly one log entry. */
  lemma StateChangesIffAccepted(admins: set<UserId>, s: State, inv: Invocation)
    ensures Step(admins, s, inv).state != s <==> Accepted(admins, s, inv)
    ensures |Step(admins, s, inv).state.log| == |s.log| + (if Accepted(admins, s, inv) then 1 else 0)
  {
  }

  /** The listings are the reference query: all entries of the key, newest
      first, cut to five; or the "nothing found" reply when there are none. */
  lemma ListingIsNewestFive(admins: set<UserId>, s: State, inv: Invocation)
    requires inv.name == "transactions" || (inv.name == "usertransactions" && inv.caller in admins && inv.options.user.Some?)
    ensures var who := if inv.name == "transactions" then inv.caller else inv.options.user.value;
      var of := if inv.name == "transactions" then Own else OfUser(who);
      var es := EntriesFor(s.log, Key(inv.guild, who));
      Step(admins, s, inv).reply ==
        if es == [] then NoHistory(of) else History(of, Reverse(es)[..Min(HistoryLimit, |es|)])
  {
    var who := if inv.name == "transactions" then inv.caller else inv.options.user.value;
    RecentIsNewestFirst(s.log, Key(inv.guild, who), HistoryLimit);
  }

  /** Right after a write, the affected user's own `transactions` listing
      starts with the entry just written. */
  lemma NewestEntryListedFirst(admins: set<UserId>, s: State, inv: Invocation, o: Options)
    requires Accepted(admins, s, inv)
    ensures var s' := Step(admins, s, inv).state;
      var k := AddressedKey(inv).value;
      var listing := Step(admins, s', Invocation(k.guild, k.user, "transactions", o)).reply;
      listing.History? && listing.entries[0] == s'.log[|s.log|]
  {
    var s' := Step(admins, s, inv).state;
    assert s'.log == s'.log[..|s.log|] + [s'.log[|s.log|]];
    assert s'.log[..|s'.log| - 1] == s.log;
  }

  /** One command moves the log sum of each key by the logged amount of the
      entry it appended for that key, if any. */
  lemma StepLogSum(admins: set<UserId>, s: State, inv: Invocation, k: Key)
    ensures var s' := Step(admins, s, inv).state;
      LogSum(s'.log, k) == LogSum(s.log, k) +
        if |s'.log| > |s.log| && s'.log[|s.log|].KeyOf() == k then s'.log[|s.log|].amount else 0
  {
    var s' := Step(admins, s, inv).state;
    if |s'.log| > |s.log| {
      assert s'.log == s.log + [s'.log[|s.log|]];
      LogSumAppend(s.log, s'.log[|s.log|], k);
    } else {
      assert s'.log == s.log;
    }
  }

  /** No command lets a balance fall below what its log records. */
  lemma StepKeepsBalanceCoversLog(admins: set<UserId>, s: State, inv: Invocation)
    requires BalanceCoversLog(s)
    ensures BalanceCoversLog(Step(admins, s, inv).state)
  {
    var s' := Step(admins, s, inv).state;
    forall k
      ensures BalanceOf(s', k) >= LogSum(s'.log, k)
    {
      StepLogSum(admins, s, inv, k);
    }
  }

  /** Starting from balances that match their logs, a command keeps them
      matched if and only if it is not a clamping `removecoins`. */
  lemma StepKeepsLogMatchIffNoClamp(admins: set<UserId>, s: State, inv: Invocation)
    requires LogMatchesBalance(s)
    ensures LogMatchesBalance(Step(admins, s, inv).state) <==> !Clamps(admins, s, inv)
  {
    var s' := Step(admins, s, inv).state;
    if Clamps(admins, s, inv) {
      var k := Key(inv.guild, inv.options.user.value);
      StepLogSum(admins, s, inv, k);
      assert BalanceOf(s', k) != LogSum(s'.log, k);
    } else {
      forall k
        ensures BalanceOf(s', k) == LogSum(s'.log, k)
      {
        StepLogSum(admins, s, inv, k);
      }
    }
  }

  /** The empty store's balances match its (empty) log. */
  lemma EmptyLogMatchesBalance()
    ensures LogMatchesBalance(Empty)
  {
  }

  /** Over any sequence of commands, balances never fall below their logs,
      and the log only ever grows at its end. */
  lemma {:induction false} RunKeepsBalanceCoversLog(admins: set<UserId>, s: State, invs: seq<Invocation>)
    requires BalanceCoversLog(s)
    ensures BalanceCoversLog(Run(admins, s, invs))
    ensures |s.log| <= |Run(admins, s, invs).log| && Run(admins, s, invs).log[..|s.log|] == s.log
  {
    if |invs| > 0 {
      var before := Run(admins, s, invs[..|invs| - 1]);
      RunKeepsBalanceCoversLog(admins, s, invs[..|invs| - 1]);
      StepKeepsBalanceCoversLog(admins, before, invs[|invs| - 1]);
      var after := Run(admins, s, invs);
      assert after.log[..|before.log|] == before.log;
      assert after.log[..|s.log|] == before.log[..|s.log|];
    }
  }

  /** From a fresh store, after any sequence of commands every balance is at
      least the sum of its log entries. */
  lemma RunFromEmptyCoversLog(admins: set<UserId>, invs: seq<Invocation>)
    ensures BalanceCoversLog(Run(admins, Empty, invs))
  {
    EmptyLogMatchesBalance();
    RunKeepsBalanceCoversLog(admins, Empty, invs);
  }

  /** The walk-through: a fresh user reads 0; an admin credits 100; the user
      spends 30 and has 70; a spend of 1000 is refused and changes nothing;
      a non-admin credit is refused and changes nothing. */
  lemma Scenario()
    ensures var admins := {"admin"};
      var none := Options(None, None, None);
      var s1 := Step(admins, Empty, Invocation("g", "u", "balance", none));
      var s2 := Step(admins, s1.state, Invocation("g", "admin", "addcoins", Options(Some("u"), Some(100), None)));
      var s3 := Step(admins, s2.state, Invocation("g", "u", "usecoins", Options(None, Some(30), None)));
      var s4 := Step(admins, s3.state, Invocation("g", "u", "usecoins", Options(None, Some(1000), None)));
      var s5 := Step(admins, s4.state, Invocation("g", "u", "addcoins", Options(Some("u"), Some(5), None)));
      && s1 == Outcome(Empty, YourBalance(0))
      && s2.reply == Adjusted(true, 100, "u", 100)
      && s2.state.log == [Entry("g", "u", 100, "addcoins by admin")]
      && s3.reply == Used(30, 70)
      && s3.state.log == [Entry("g", "u", 100, "addcoins by admin"), Entry("g", "u", -30, "used by user")]
      && BalanceOf(s3.state, Key("g", "u")) == 70
      && s4 == Outcome(s3.state, NotEnough(70, 1000))
      && s5 == Outcome(s3.state, Denied(NoPermission))
  {
    assert "addcoins" + " by admin" == "addcoins by admin";
    var k := Key("g", "u");
    var s2 := Step({"admin"}, Empty, Invocation("g", "admin", "addcoins", Options(Some("u"), Some(100), None)));
    assert BalanceOf(s2.state, k) == 100;
    var s3 := Step({"admin"}, s2.state, Invocation("g", "u", "usecoins", Options(None, Some(30), None)));
    assert BalanceOf(s3.state, k) == 70;
  }
}
