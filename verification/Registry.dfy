/** The transaction registry in place: claiming, finishing, reaping and deleting a
    connection's transactions, each as one step of the protocol. */
module Registry {
  import opened Prelude
  import opened Transactions

  function Leaving(items: map<nat, Item>, fits: Item -> bool): set<nat> {
    set t | t in items && Leaves(items[t], fits)
  }

  /** The loop over the registry: what fits leaves it. */
  method Sweep(items: map<nat, Item>, fits: Item -> bool, cause: Cause) returns (left: map<nat, Item>, expired: set<nat>)
    ensures left == Doom(items, fits, cause)
    ensures expired == Leaving(items, fits)
  {
    hide *;
    left, expired := items, {};
    var rest := items.Keys;
    while rest != {}
      invariant rest <= items.Keys && left.Keys == items.Keys
      invariant forall t :: t in rest ==> left[t] == items[t]
      invariant forall t :: t in items && t !in rest ==> left[t] == Swept(items[t], fits, cause)
      invariant forall t :: t in expired <==> t in items && t !in rest && Leaves(items[t], fits)
      decreases |rest|
    {
      var t :| t in rest;
      rest := rest - {t};
      SweptEither(items[t], fits, cause);
      if Leaves(items[t], fits) {
        left := left[t := items[t].(registered := false, doomed := Some(cause))];
        expired := expired + {t};
      }
    }
    SweptAll(items, fits, cause, left, expired);
  }

  lemma SweptAll(items: map<nat, Item>, fits: Item -> bool, cause: Cause, left: map<nat, Item>, expired: set<nat>)
    requires left.Keys == items.Keys && forall t :: t in items ==> left[t] == Swept(items[t], fits, cause)
    requires forall t :: t in expired <==> t in items && Leaves(items[t], fits)
    ensures left == Doom(items, fits, cause) && expired == Leaving(items, fits)
  {
    hide Leaves, Swept, Doom;
    DoomAt(items, fits, cause);
  }

  lemma SweptEither(i: Item, fits: Item -> bool, cause: Cause)
    ensures Swept(i, fits, cause) == if Leaves(i, fits) then i.(registered := false, doomed := Some(cause)) else i
  {
  }

  class Server {
    const timeout: nat
    var items: map<nat, Item>
    var requests: map<nat, Request>
    var told: map<nat, Told>
    var now: nat

    function View(): State
      reads this
    {
      State(items, requests, told, now, timeout)
    }

    constructor (limit: nat)
      ensures View() == Start(limit)
    {
      timeout := limit;
      items, requests, told, now := map[], map[], map[], 0;
    }

    /** Finding and claiming under one lock: the caller gets the transaction, unless it expired first. */
    method TransactionEntry(r: nat, t: nat, purpose: Purpose) returns (claimed: bool)
      requires t in items && items[t].registered
      modifies this
      ensures View() == Next(old(View()), Claim(r, t, purpose))
      ensures claimed == !IdleTooLong(old(View()), old(items)[t])
    {
      var item := items[t];
      if item.running == 0 && now > item.lastUsed + timeout {
        items := items[t := item.(registered := false, doomed := Some(Idle))];
        return false;
      }
      items := items[t := item.(running := item.running + 1, lastUsed := now)];
      requests := requests[r := Request(t, purpose, Claimed)];
      claimed := true;
    }

    /** The end of a finishing request, under the transaction's lock. */
    method FinishTransaction(r: nat, report: Report, effective: bool) returns (answer: Told)
      requires r in requests && requests[r].purpose.Finish? && requests[r].item in items
      modifies this
      ensures View() == Next(old(View()), End(r, report, effective))
      ensures answer == told[r]
    {
      var t := requests[r].item;
      var item, commit := items[t], requests[r].purpose.commit;
      var state := HealthOf(item);
      requests := requests[r := requests[r].(stage := Over)];
      if state == Lost {
        items := items[t := RollBack(item)];
        answer := if commit then CommitLost(t) else RollbackDone(t);
      } else if state == Aborted && commit {
        items := items[t := RollBack(item)];
        answer := WasRolledBack;
      } else {
        var result := Reports(item, report);
        if commit {
          items := items[t := Commit(item, effective)];
        } else {
          items := items[t := RollBack(item)];
        }
        if result == ServerRolledBack {
          answer := WasRolledBack;
        } else if result == Failed {
          answer := FinishFailed;
        } else if commit {
          items := items[t := items[t].(winner := Some(r))];
          answer := CommitDone(t);
        } else {
          answer := RollbackDone(t);
        }
      }
      told := told[r := answer];
    }

    method Done(r: nat)
      requires r in requests && requests[r].item in items && items[requests[r].item].running > 0
      modifies this
      ensures View() == Next(old(View()), Leave(r))
    {
      var t := requests[r].item;
      items := items[t := items[t].(running := items[t].running - 1, lastUsed := now)];
      requests := requests - {r};
    }

    method ReapIdle() returns (expired: set<nat>)
      modifies this
      ensures View() == Next(old(View()), Reap)
      ensures forall t :: t in expired <==>
                t in old(items) && old(items)[t].registered && old(items)[t].running == 0 && old(now) - old(items)[t].lastUsed > timeout
    {
      var left, gone := Sweep(items, ReapOne(View()), Idle);
      items, expired := left, gone;
    }

    method CloseConnection(connection: string) returns (closed: set<nat>)
      modifies this
      ensures View() == Next(old(View()), DeleteConnection(connection))
      ensures closed == Leaving(old(items), OfConnection(connection))
    {
      var left, gone := Sweep(items, OfConnection(connection), Deleted);
      items, closed := left, gone;
    }
  }
}
