/** The coin ledger of the bot: the `coin_balances` table, keyed by
    (guild, user), and the append-only `transactions` table. Both live in a
    remote datastore in the bot; here they are one immutable value. */
module Ledger {

  type GuildId = string
  type UserId = string

  /** The composite key of a balance row, and the scope of a transaction query. */
  datatype Key = Key(guild: GuildId, user: UserId)

  /** One row of `transactions`. The datastore also stamps each row with an id
      and an insertion time; the row's position in the log stands for both. */
  datatype Entry = Entry(guild: GuildId, user: UserId, amount: int, reason: string)
  {
    function KeyOf(): Key { Key(guild, user) }
  }

  /** The two tables. A key absent from `balances` has no row yet. */
  datatype State = State(balances: map<Key, int>, log: seq<Entry>)

  /** A fresh datastore: no balance rows, no transactions. */
  const Empty: State := State(map[], [])

  /** Number of rows the transaction queries ask for. */
  const HistoryLimit: nat := 5

  function Max(a: int, b: int): int { if a < b then b else a }

  function Min(a: int, b: int): int { if a < b then a else b }

  /** Point lookup of a balance row; a missing row reads as 0. */
  function BalanceOf(s: State, k: Key): int
  {
    if k in s.balances then s.balances[k] else 0
  }

  /** The two writes every mutating command issues: an upsert of the balance
      row for `k`, then the insert of one transaction row for `k`. */
  function Commit(s: State, k: Key, newBalance: int, amount: int, reason: string): (s': State)
    ensures BalanceOf(s', k) == newBalance
    ensures forall k' :: k' != k ==> BalanceOf(s', k') == BalanceOf(s, k')
    ensures s'.balances.Keys == s.balances.Keys + {k}
    ensures |s'.log| == |s.log| + 1 && s'.log[..|s.log|] == s.log
    ensures s'.log[|s.log|] == Entry(k.guild, k.user, amount, reason)
  {
    State(s.balances[k := newBalance], s.log + [Entry(k.guild, k.user, amount, reason)])
  }

  /** `s` in the opposite order: the last element comes first. */
  function Reverse<T>(s: seq<T>): (r: seq<T>)
    ensures |r| == |s|
    ensures forall i :: 0 <= i < |s| ==> r[i] == s[|s| - 1 - i]
  {
    if |s| == 0 then [] else [s[|s| - 1]] + Reverse(s[..|s| - 1])
  }

  /** The entries of `log` that belong to `k`, oldest first. */
  function EntriesFor(log: seq<Entry>, k: Key): (r: seq<Entry>)
    ensures |r| <= |log|
    ensures forall i :: 0 <= i < |r| ==> r[i].KeyOf() == k && r[i] in log
  {
    if |log| == 0 then []
    else
      var rest := EntriesFor(log[..|log| - 1], k);
      if log[|log| - 1].KeyOf() == k then rest + [log[|log| - 1]] else rest
  }

  /** The selection is complete: every entry of `k` in the log is selected,
      as many times as it occurs, and no entry of another key is. */
  lemma {:induction false} EntriesForComplete(log: seq<Entry>, k: Key)
    ensures forall e :: multiset(EntriesFor(log, k))[e] == if e.KeyOf() == k then multiset(log)[e] else 0
  {
    if |log| > 0 {
      EntriesForComplete(log[..|log| - 1], k);
      assert log == log[..|log| - 1] + [log[|log| - 1]];
    }
  }

  /** Sum of the signed amounts of a list of entries. */
  function SumAmounts(es: seq<Entry>): int
  {
    if |es| == 0 then 0 else SumAmounts(es[..|es| - 1]) + es[|es| - 1].amount
  }

  /** What the log says the balance of `k` should be: the sum of its entries. */
  function LogSum(log: seq<Entry>, k: Key): int
  {
    SumAmounts(EntriesFor(log, k))
  }

  /** The transaction query: the newest `n` entries of `k`, newest first,
      found by scanning the log from its newest end. */
  function Recent(log: seq<Entry>, k: Key, n: nat): (r: seq<Entry>)
    ensures |r| <= n
    ensures forall i :: 0 <= i < |r| ==> r[i].KeyOf() == k && r[i] in log
  {
    if |log| == 0 || n == 0 then []
    else
      var last := log[|log| - 1];
      if last.KeyOf() == k then [last] + Recent(log[..|log| - 1], k, n - 1)
      else Recent(log[..|log| - 1], k, n)
  }

  /** Appending one entry extends the entries of its own key by that entry
      and leaves every other key's entries as they were. */
  lemma EntriesForAppend(log: seq<Entry>, e: Entry, k: Key)
    ensures EntriesFor(log + [e], k) == if e.KeyOf() == k then EntriesFor(log, k) + [e] else EntriesFor(log, k)
  {
    assert (log + [e])[..|log|] == log;
  }

  /** Appending one entry moves its own key's log sum by its amount and no other. */
  lemma LogSumAppend(log: seq<Entry>, e: Entry, k: Key)
    ensures LogSum(log + [e], k) == LogSum(log, k) + (if e.KeyOf() == k then e.amount else 0)
  {
    EntriesForAppend(log, e, k);
    if e.KeyOf() == k {
      var es := EntriesFor(log, k);
      assert (es + [e])[..|es|] == es;
    }
  }

  /** The scan in `Recent` is the reference query "all entries of `k`, newest
      first, cut to `n`": its i-th result is the i-th newest entry of `k`. */
  lemma {:induction false} RecentIsNewestFirst(log: seq<Entry>, k: Key, n: nat)
    ensures Recent(log, k, n) == Reverse(EntriesFor(log, k))[..Min(n, |EntriesFor(log, k)|)]
  {
    if |log| == 0 || n == 0 {
    } else {
      var init := log[..|log| - 1];
      var last := log[|log| - 1];
      var es := EntriesFor(init, k);
      if last.KeyOf() == k {
        RecentIsNewestFirst(init, k, n - 1);
        assert EntriesFor(log, k) == es + [last];
        assert (es + [last])[..|es|] == es;
        assert Reverse(es + [last]) == [last] + Reverse(es);
      } else {
        RecentIsNewestFirst(init, k, n);
        assert EntriesFor(log, k) == es;
      }
    }
  }
}
