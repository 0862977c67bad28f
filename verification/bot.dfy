/** The slash-command dispatch of the bot: one invocation (command name,
    options, caller, guild) against the ledger yields the new ledger and the
    single ephemeral reply. */
module Bot {
  import opened Ledger

  datatype Option<T> = None | Some(value: T)

  /** The options an invocation may carry. Which ones a command requires is
      decided when the handler reads them, not here. */
  datatype Options = Options(user: Option<UserId>, amount: Option<int>, reason: Option<string>)

  datatype Invocation = Invocation(guild: GuildId, caller: UserId, name: string, options: Options)

  /** The two wordings of the admin-only refusal. */
  datatype Denial = NoPermission | AdminsOnly

  /** Whose history a listing shows: the caller's own, or a named user's. */
  datatype Listing = Own | OfUser(target: UserId)

  datatype Reply =
    | YourBalance(balance: int)
    | Denied(why: Denial)
    | Adjusted(added: bool, amount: int, target: UserId, newBalance: int)
    | NotEnough(have: int, need: int)
    | Used(amount: int, remaining: int)
    | History(of: Listing, entries: seq<Entry>)
    | NoHistory(of: Listing)
    | UserBalance(target: UserId, balance: int)
    | UnknownCommand
      /** The generic reply of the handler's catch: here only reached when a
          required option is missing, since store writes always succeed. */
    | Failed
      /** Only from the corrected handler `Findings.SafeStep`: an amount below 1. */
    | AmountTooSmall

  datatype Outcome = Outcome(state: State, reply: Reply)

  /** A reason option that is absent or empty falls back to `fallback`. */
  function ReasonOr(given: Option<string>, fallback: string): string
  {
    if given.Some? && given.value != "" then given.value else fallback
  }

  predicate IsAdminCommand(name: string)
  {
    name in {"addcoins", "removecoins", "checkcoins", "usertransactions"}
  }

  /** The balance row a command writes when it succeeds, if any. */
  function AddressedKey(inv: Invocation): Option<Key>
  {
    if inv.name in {"addcoins", "removecoins"} && inv.options.user.Some? then
      Some(Key(inv.guild, inv.options.user.value))
    else if inv.name == "usecoins" then Some(Key(inv.guild, inv.caller))
    else None
  }

  /** `addcoins` and `removecoins`: an admin credits `amount` to the target,
      or debits it with the result floored at 0; either way one entry of the
      signed amount is logged. */
  function AdminAdjust(admins: set<UserId>, s: State, inv: Invocation): (out: Outcome)
    requires inv.name in {"addcoins", "removecoins"}
    ensures inv.caller !in admins ==> out == Outcome(s, Denied(NoPermission))
    ensures inv.caller in admins && (inv.options.user.None? || inv.options.amount.None?) ==> out == Outcome(s, Failed)
    ensures inv.caller in admins && inv.options.user.Some? && inv.options.amount.Some? ==>
      var k := Key(inv.guild, inv.options.user.value);
      var amount := inv.options.amount.value;
      var adding := inv.name == "addcoins";
      && BalanceOf(out.state, k) == (if adding then BalanceOf(s, k) + amount else Max(BalanceOf(s, k) - amount, 0))
      && (forall k' :: k' != k ==> BalanceOf(out.state, k') == BalanceOf(s, k'))
      && out.state.log == s.log + [Entry(inv.guild, k.user, if adding then amount else -amount,
                                         ReasonOr(inv.options.reason, inv.name + " by admin"))]
      && out.reply == Adjusted(adding, amount, k.user, BalanceOf(out.state, k))
  {
    if inv.caller !in admins then Outcome(s, Denied(NoPermission))
    else if inv.options.user.None? || inv.options.amount.None? then Outcome(s, Failed)
    else
      var k := Key(inv.guild, inv.options.user.value);
      var amount := inv.options.amount.value;
      var reason := ReasonOr(inv.options.reason, inv.name + " by admin");
      var current := BalanceOf(s, k);
      if inv.name == "addcoins" then
        var s' := Commit(s, k, current + amount, amount, reason);
        Outcome(s', Adjusted(true, amount, k.user, current + amount))
      else
        var newBalance := Max(current - amount, 0);
        var s' := Commit(s, k, newBalance, -amount, reason);
        Outcome(s', Adjusted(false, amount, k.user, newBalance))
  }

  /** `usecoins`: any caller spends from their own balance, refused when the
      balance is below the amount. */
  function UseCoins(s: State, inv: Invocation): (out: Outcome)
    ensures inv.options.amount.None? ==> out == Outcome(s, Failed)
    ensures inv.options.amount.Some? ==>
      var k := Key(inv.guild, inv.caller);
      var amount := inv.options.amount.value;
      if BalanceOf(s, k) < amount then
        out == Outcome(s, NotEnough(BalanceOf(s, k), amount))
      else
        && BalanceOf(out.state, k) == BalanceOf(s, k) - amount >= 0
        && (forall k' :: k' != k ==> BalanceOf(out.state, k') == BalanceOf(s, k'))
        && out.state.log == s.log + [Entry(inv.guild, inv.caller, -amount, ReasonOr(inv.options.reason, "used by user"))]
        && out.reply == Used(amount, BalanceOf(out.state, k))
  {
    if inv.options.amount.None? then Outcome(s, Failed)
    else
      var k := Key(inv.guild, inv.caller);
      var amount := inv.options.amount.value;
      var reason := ReasonOr(inv.options.reason, "used by user");
      var current := BalanceOf(s, k);
      if current < amount then Outcome(s, NotEnough(current, amount))
      else
        var s' := Commit(s, k, current - amount, -amount, reason);
        Outcome(s', Used(amount, current - amount))
  }

  /** The transaction listing for `k`: at most five entries of `k`, newest
      first, or the "nothing found" reply when `k` has none. */
  function ListHistory(s: State, k: Key, of: Listing): (out: Outcome)
    ensures out.state == s
    ensures EntriesFor(s.log, k) == [] <==> out.reply == NoHistory(of)
    ensures out.reply.History? ==>
      && out.reply.of == of
      && 0 < |out.reply.entries| <= HistoryLimit
      && (forall i :: 0 <= i < |out.reply.entries| ==> out.reply.entries[i].KeyOf() == k)
    ensures EntriesFor(s.log, k) != [] ==>
      out.reply == History(of, Reverse(EntriesFor(s.log, k))[..Min(HistoryLimit, |EntriesFor(s.log, k)|)])
  {
    var es := Recent(s.log, k, HistoryLimit);
    RecentIsNewestFirst(s.log, k, HistoryLimit);
    if |es| == 0 then Outcome(s, NoHistory(of)) else Outcome(s, History(of, es))
  }

  /** One invocation of the `interactionCreate` handler. */
  function Step(admins: set<UserId>, s: State, inv: Invocation): (out: Outcome)
    ensures forall k :: Some(k) != AddressedKey(inv) ==> BalanceOf(out.state, k) == BalanceOf(s, k)
    ensures AddressedKey(inv).None? ==> out.state == s
    ensures |s.log| <= |out.state.log| <= |s.log| + 1 && out.state.log[..|s.log|] == s.log
    ensures forall i :: |s.log| <= i < |out.state.log| ==> Some(out.state.log[i].KeyOf()) == AddressedKey(inv)
    ensures IsAdminCommand(inv.name) && inv.caller !in admins ==> out.state == s && out.reply.Denied?
  {
    var g := inv.guild;
    if inv.name == "balance" then
      Outcome(s, YourBalance(BalanceOf(s, Key(g, inv.caller))))
    else if inv.name in {"addcoins", "removecoins"} then
      AdminAdjust(admins, s, inv)
    else if inv.name == "usecoins" then
      UseCoins(s, inv)
    else if inv.name == "transactions" then
      ListHistory(s, Key(g, inv.caller), Own)
    else if inv.name == "checkcoins" then
      if inv.caller !in admins then Outcome(s, Denied(AdminsOnly))
      else if inv.options.user.None? then Outcome(s, Failed)
      else
        var t := inv.options.user.value;
        Outcome(s, UserBalance(t, BalanceOf(s, Key(g, t))))
    else if inv.name == "usertransactions" then
      if inv.caller !in admins then Outcome(s, Denied(AdminsOnly))
      else if inv.options.user.None? then Outcome(s, Failed)
      else
        var t := inv.options.user.value;
        ListHistory(s, Key(g, t), OfUser(t))
    else
      Outcome(s, UnknownCommand)
  }

  /** A sequence of invocations handled one at a time, oldest first. */
  function Run(admins: set<UserId>, s: State, invs: seq<Invocation>): State
  {
    if |invs| == 0 then s
    else Step(admins, Run(admins, s, invs[..|invs| - 1]), invs[|invs| - 1]).state
  }
}
