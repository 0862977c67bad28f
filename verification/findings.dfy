/** The amount option of `addcoins`, `removecoins` and `usecoins` is an
    integer with no lower bound, and no handler checks its sign. This module
    shows what that lets through and proves the intended guarantees of a
    handler that refuses amounts below 1. */
module Findings {
  import opened Ledger
  import opened Bot

  /** No stored balance is negative. */
  ghost predicate NonNegative(s: State)
  {
    forall k :: BalanceOf(s, k) >= 0
  }

  /** As written: a caller who is not an admin raises their own balance by
      spending a negative amount, which also logs a positive entry. */
  lemma UseCoinsNegativeAmountCredits(admins: set<UserId>, s: State, inv: Invocation)
    requires inv.name == "usecoins" && inv.options.amount.Some? && inv.options.amount.value < 0
    requires BalanceOf(s, Key(inv.guild, inv.caller)) >= 0
    ensures var k := Key(inv.guild, inv.caller);
      var out := Step(admins, s, inv);
      && BalanceOf(out.state, k) > BalanceOf(s, k)
      && out.state.log[|s.log|].amount > 0
  {
  }

  /** As written, concretely: a user with no coins and no admin rights runs
      `/usecoins amount:-100` and ends up with 100 coins. */
  lemma UseCoinsMintsFromNothing()
    ensures var out := Step({}, Empty, Invocation("g", "u", "usecoins", Options(None, Some(-100), None)));
      && BalanceOf(out.state, Key("g", "u")) == 100
      && out.reply == Used(-100, 100)
  {
  }

  /** As written, concretely: an admin `/addcoins amount:-5` on a fresh user
      stores a balance of -5. */
  lemma AddCoinsCanStoreNegative()
    ensures var out := Step({"a"}, Empty, Invocation("g", "a", "addcoins", Options(Some("u"), Some(-5), None)));
      && NonNegative(Empty)
      && BalanceOf(out.state, Key("g", "u")) == -5
  {
  }

  /** As written, the only command that can break `NonNegative` is an admin
      `addcoins` that takes its target below 0. */
  lemma StepKeepsNonNegativeIffNoNegativeCredit(admins: set<UserId>, s: State, inv: Invocation)
    requires NonNegative(s)
    ensures NonNegative(Step(admins, s, inv).state) <==>
      !(&& inv.name == "addcoins" && inv.caller in admins
        && inv.options.user.Some? && inv.options.amount.Some?
        && BalanceOf(s, Key(inv.guild, inv.options.user.value)) + inv.options.amount.value < 0)
  {
    var s' := Step(admins, s, inv).state;
    if inv.name == "addcoins" && inv.caller in admins && inv.options.user.Some? && inv.options.amount.Some? {
      var k := Key(inv.guild, inv.options.user.value);
      assert BalanceOf(s', k) == BalanceOf(s, k) + inv.options.amount.value;
    }
  }

  predicate TakesAmount(name: string)
  {
    name in {"addcoins", "removecoins", "usecoins"}
  }

  /** The corrected handler: an amount below 1 is refused before anything
      else, as a lower bound of 1 on the amount option would; otherwise the
      handler behaves as written. */
  function SafeStep(admins: set<UserId>, s: State, inv: Invocation): (out: Outcome)
    ensures TakesAmount(inv.name) && inv.options.amount.Some? && inv.options.amount.value < 1 ==>
      out == Outcome(s, AmountTooSmall)
    ensures forall k :: Some(k) != AddressedKey(inv) ==> BalanceOf(out.state, k) == BalanceOf(s, k)
  {
    if TakesAmount(inv.name) && inv.options.amount.Some? && inv.options.amount.value < 1 then
      Outcome(s, AmountTooSmall)
    else
      Step(admins, s, inv)
  }

  /** Corrected: no command drives a stored balance below 0. */
  lemma SafeStepKeepsNonNegative(admins: set<UserId>, s: State, inv: Invocation)
    requires NonNegative(s)
    ensures NonNegative(SafeStep(admins, s, inv).state)
  {
    if !(TakesAmount(inv.name) && inv.options.amount.Some? && inv.options.amount.value < 1) {
      StepKeepsNonNegativeIffNoNegativeCredit(admins, s, inv);
    }
  }

  /** Corrected: a caller outside the admin list can never raise any balance,
      their own included. */
  lemma SafeStepNonAdminNeverCredits(admins: set<UserId>, s: State, inv: Invocation, k: Key)
    requires inv.caller !in admins
    ensures BalanceOf(SafeStep(admins, s, inv).state, k) <= BalanceOf(s, k)
  {
  }

  /** A sequence of invocations handled by the corrected handler. */
  function SafeRun(admins: set<UserId>, s: State, invs: seq<Invocation>): State
  {
    if |invs| == 0 then s
    else SafeStep(admins, SafeRun(admins, s, invs[..|invs| - 1]), invs[|invs| - 1]).state
  }

  /** Corrected: from a fresh store, no sequence of commands ever stores a
      negative balance. */
  lemma {:induction false} SafeRunKeepsNonNegative(admins: set<UserId>, invs: seq<Invocation>)
    ensures NonNegative(SafeRun(admins, Empty, invs))
  {
    if |invs| > 0 {
      SafeRunKeepsNonNegative(admins, invs[..|invs| - 1]);
      SafeStepKeepsNonNegative(admins, SafeRun(admins, Empty, invs[..|invs| - 1]), invs[|invs| - 1]);
    }
  }
}
