/**
Round accounting of savings circles: contribution and payout transactions, each atomic under the
circle's advisory lock.
 */
module Circles {
  import opened Wrappers

  /** Amounts are integers here. Rows are identified by what the unique indexes identify them by. */
  datatype Contribution = Contribution(circle: nat, user: nat, round: int, amount: int, tx: string)
  datatype Payout = Payout(circle: nat, recipient: nat, round: int, amount: int, tx: string)
  datatype Circle = Circle(total: int, currentRound: int, deleted: bool)

  datatype Db = Db(circles: map<nat, Circle>, contributions: set<Contribution>, payouts: set<Payout>,
                   active: map<nat, set<nat>>)

  // ---------------------------------------------------------------------------------------
  // The transactions as functions of the database
  // ---------------------------------------------------------------------------------------

  /** The two unique indexes on contributions: (circle, user, round) and the transaction hash. */
  predicate Clash(x: Contribution, y: Contribution) {
    (x.circle == y.circle && x.user == y.user && x.round == y.round) || x.tx == y.tx
  }

  /** The insert succeeds: the circle exists and no unique index is violated. */
  ghost predicate Insertable(db: Db, x: Contribution) {
    x.circle in db.circles && forall y :: y in db.contributions ==> !Clash(x, y)
  }

  ghost predicate PayoutInsertable(db: Db, p: Payout) {
    p.circle in db.circles && forall q :: q in db.payouts ==> q.tx != p.tx
  }

  function Active(active: map<nat, set<nat>>, circle: nat): (members: set<nat>) {
    if circle in active then active[circle] else {}
  }

  /** The users with a contribution to the round. */
  function Funders(contributions: set<Contribution>, circle: nat, round: int): (users: set<nat>) {
    set x | x in contributions && x.circle == circle && x.round == round :: x.user
  }

  /** The round is fully funded for n active members; without members no round is. */
  predicate Funded(contributions: set<Contribution>, circle: nat, round: int, n: nat) {
    n > 0 && |Funders(contributions, circle, round)| >= n
  }

  ghost function Contribute(db: Db, x: Contribution): (r: Db) {
    if !Insertable(db, x) then db
    else
      var rows := db.contributions + {x};
      var c := db.circles[x.circle];
      var complete := Funded(rows, x.circle, x.round, |Active(db.active, x.circle)|);
      var c' := if c.deleted then c
                else c.(total := c.total + x.amount,
                        currentRound := if complete then Max(c.currentRound, x.round + 1) else c.currentRound);
      db.(contributions := rows, circles := db.circles[x.circle := c'])
  }

  ghost function Pay(db: Db, p: Payout): (r: Db) {
    if !PayoutInsertable(db, p) then db
    else
      var c := db.circles[p.circle];
      var c' := if c.deleted then c else c.(currentRound := Max(c.currentRound, p.round + 1));
      db.(payouts := db.payouts + {p}, circles := db.circles[p.circle := c'])
  }

  datatype Action =
    | Contributed(contribution: Contribution)
    | Paid(payout: Payout)
    | Joined(circle: nat, user: nat)
    | Left(circle: nat, user: nat)
    | Deleted(circle: nat)

  ghost function Step(db: Db, a: Action): (r: Db) {
    match a
    case Contributed(x) => Contribute(db, x)
    case Paid(p) => Pay(db, p)
    case Joined(c, u) => db.(active := db.active[c := Active(db.active, c) + {u}])
    case Left(c, u) => db.(active := db.active[c := Active(db.active, c) - {u}])
    case Deleted(c) => if c in db.circles then db.(circles := db.circles[c := db.circles[c].(deleted := true)]) else db
  }

  ghost function Run(db: Db, actions: seq<Action>): (r: Db)
    decreases |actions|
  {
    if actions == [] then db else Step(Run(db, actions[..|actions| - 1]), actions[|actions| - 1])
  }

  // ---------------------------------------------------------------------------------------
  // Conservation
  // ---------------------------------------------------------------------------------------

  function AmountFor(x: Contribution, circle: nat): (amount: int) {
    if x.circle == circle then x.amount else 0
  }

  ghost function SumFor(rows: set<Contribution>, circle: nat): (sum: int)
    decreases |rows|
  {
    if rows == {} then 0
    else
      var x :| x in rows;
      AmountFor(x, circle) + SumFor(rows - {x}, circle)
  }

  lemma {:induction false} SumInsert(rows: set<Contribution>, x: Contribution, circle: nat)
    requires x !in rows
    ensures SumFor(rows + {x}, circle) == SumFor(rows, circle) + AmountFor(x, circle)
    decreases |rows|
  {
    var all := rows + {x};
    var y :| y in all && SumFor(all, circle) == AmountFor(y, circle) + SumFor(all - {y}, circle);
    if y == x {
      assert all - {y} == rows;
    } else {
      SumInsert(rows - {y}, x, circle);
      assert all - {y} == (rows - {y}) + {x};
      SumRemove(rows, y, circle);
    }
  }

  lemma {:induction false} SumRemove(rows: set<Contribution>, y: Contribution, circle: nat)
    requires y in rows
    ensures SumFor(rows, circle) == AmountFor(y, circle) + SumFor(rows - {y}, circle)
    decreases |rows|, 0
  {
    var z :| z in rows && SumFor(rows, circle) == AmountFor(z, circle) + SumFor(rows - {z}, circle);
    if z != y {
      SumRemove(rows - {z}, y, circle);
      SumRemove(rows - {y}, z, circle);
      assert rows - {z} - {y} == rows - {y} - {z};
    }
  }

  lemma StepConserves(db: Db, a: Action, c: nat)
    requires c in db.circles
    ensures var next := Step(db, a);
      && c in next.circles && next.circles.Keys == db.circles.Keys
      && db.contributions <= next.contributions
      && (db.circles[c].deleted ==> next.circles[c].deleted)
      && (!next.circles[c].deleted ==>
            next.circles[c].total - SumFor(next.contributions, c) == db.circles[c].total - SumFor(db.contributions, c))
  {
    if a.Contributed? && Insertable(db, a.contribution) {
      assert a.contribution !in db.contributions by {
        if a.contribution in db.contributions { assert Clash(a.contribution, a.contribution); }
      }
      SumInsert(db.contributions, a.contribution, c);
    }
  }

  /** Conservation over every run, with members coming and going, replays, rejected events and
      deletions: a circle that is not deleted has grown by exactly the recorded contributions. */
  lemma {:induction false} TotalsAreConserved(db: Db, actions: seq<Action>, c: nat)
    requires c in db.circles
    ensures var end := Run(db, actions);
      && c in end.circles && end.circles.Keys == db.circles.Keys
      && db.contributions <= end.contributions
      && (db.circles[c].deleted ==> end.circles[c].deleted)
      && (!end.circles[c].deleted ==>
            end.circles[c].total == db.circles[c].total + SumFor(end.contributions, c) - SumFor(db.contributions, c))
    decreases |actions|
  {
    if actions != [] {
      var init := actions[..|actions| - 1];
      TotalsAreConserved(db, init, c);
      StepConserves(Run(db, init), actions[|actions| - 1], c);
    }
  }

  // ---------------------------------------------------------------------------------------
  // Justified rounds
  // ---------------------------------------------------------------------------------------

  /** The step a, from db, moves the circle to round r for cause: it recorded a contribution that
      completes round r-1, or a payout that closes it. */
  ghost predicate Justifies(db: Db, a: Action, c: nat, r: int) {
    var next := Step(db, a);
    || (&& a.Contributed? && Insertable(db, a.contribution)
        && a.contribution.circle == c && a.contribution.round + 1 == r
        && Funded(next.contributions, c, r - 1, |Active(db.active, c)|))
    || (&& a.Paid? && PayoutInsertable(db, a.payout) && a.payout.circle == c && a.payout.round + 1 == r)
  }

  lemma RoundMovesForCause(db: Db, a: Action, c: nat)
    requires c in db.circles
    ensures c in Step(db, a).circles
    ensures db.circles[c].currentRound <= Step(db, a).circles[c].currentRound
    ensures db.circles[c].currentRound < Step(db, a).circles[c].currentRound ==>
      Justifies(db, a, c, Step(db, a).circles[c].currentRound)
  {
  }

  /** The round a circle stands at is its initial one or was reached by a justified step of the
      run; it never falls on the way. */
  lemma {:induction false} RoundsAreJustified(db: Db, actions: seq<Action>, c: nat)
    requires c in db.circles
    ensures c in Run(db, actions).circles
    ensures db.circles[c].currentRound <= Run(db, actions).circles[c].currentRound
    ensures var r := Run(db, actions).circles[c].currentRound;
      r == db.circles[c].currentRound
      || exists i :: 0 <= i < |actions| && Justifies(Run(db, actions[..i]), actions[i], c, r)
    decreases |actions|
  {
    if actions != [] {
      var init, a := actions[..|actions| - 1], actions[|actions| - 1];
      RoundsAreJustified(db, init, c);
      RoundMovesForCause(Run(db, init), a, c);
      var r := Run(db, actions).circles[c].currentRound;
      if r == Run(db, init).circles[c].currentRound {
        if r != db.circles[c].currentRound {
          var i :| 0 <= i < |init| && Justifies(Run(db, init[..i]), init[i], c, r);
          assert init[..i] == actions[..i];
          assert Justifies(Run(db, actions[..i]), actions[i], c, r);
        }
      } else {
        assert Justifies(Run(db, actions[..|actions| - 1]), actions[|actions| - 1], c, r);
      }
    }
  }

  // ---------------------------------------------------------------------------------------
  // What one event does
  // ---------------------------------------------------------------------------------------

  /** A contribution is recorded if and only if its circle exists and no row has its transaction, nor its
      circle, user and round; and nothing else is recorded or lost. */
  lemma ContributionIsRecordedIff(db: Db, x: Contribution, y: Contribution)
    ensures y in Step(db, Contributed(x)).contributions <==>
      || y in db.contributions
      || (y == x && x.circle in db.circles
          && forall z :: z in db.contributions ==>
               z.tx != x.tx && !(z.circle == x.circle && z.user == x.user && z.round == x.round))
    ensures Step(db, Contributed(x)).payouts == db.payouts
  {
  }

  /** A payout is recorded if and only if its circle exists and no row has its transaction. */
  lemma PayoutIsRecordedIff(db: Db, p: Payout, q: Payout)
    ensures q in Step(db, Paid(p)).payouts <==>
      || q in db.payouts
      || (q == p && p.circle in db.circles && forall z :: z in db.payouts ==> z.tx != p.tx)
    ensures Step(db, Paid(p)).contributions == db.contributions
  {
  }

  /** One row per member and round, and one per transaction. */
  ghost predicate RowsAreKeyed(db: Db) {
    forall x, y :: x in db.contributions && y in db.contributions && x != y ==>
      x.tx != y.tx && !(x.circle == y.circle && x.user == y.user && x.round == y.round)
  }

  /** In every run no member is counted twice in a round. */
  lemma {:induction false} NobodyCountsTwice(db: Db, actions: seq<Action>)
    requires RowsAreKeyed(db)
    ensures RowsAreKeyed(Run(db, actions))
    decreases |actions|
  {
    if actions != [] {
      NobodyCountsTwice(db, actions[..|actions| - 1]);
    }
  }

  /** A member who joins counts until it leaves, and only in that circle. */
  lemma MembersMove(db: Db, a: Action, c: nat, u: nat)
    ensures u in Active(Step(db, a).active, c) <==> (u in Active(db.active, c) && a != Left(c, u)) || a == Joined(c, u)
  {
  }

  /** A deleted circle is frozen: no run changes it again, although events are still recorded. */
  lemma {:induction false} DeletedIsFrozen(db: Db, actions: seq<Action>, c: nat)
    requires c in db.circles
    ensures var was := Step(db, Deleted(c));
      && c in was.circles && was.circles[c] == db.circles[c].(deleted := true)
      && c in Run(was, actions).circles && Run(was, actions).circles[c] == was.circles[c]
    decreases |actions|
  {
    if actions != [] {
      DeletedIsFrozen(db, actions[..|actions| - 1], c);
    }
  }

  /** The contribution of the last missing member completes its round: with every other active member on
      record and nobody else, the round advances with it, and without it it would not have. */
  lemma LastMemberCompletes(db: Db, x: Contribution)
    requires Insertable(db, x) && !db.circles[x.circle].deleted
    requires var members := Active(db.active, x.circle);
      x.user in members && Funders(db.contributions, x.circle, x.round) == members - {x.user}
    requires db.circles[x.circle].currentRound <= x.round
    ensures Step(db, Contributed(x)).circles[x.circle].currentRound == x.round + 1
    ensures !Funded(db.contributions, x.circle, x.round, |Active(db.active, x.circle)|)
  {
    var members := Active(db.active, x.circle);
    assert Funders(db.contributions + {x}, x.circle, x.round)
        == Funders(db.contributions, x.circle, x.round) + {x.user};
    assert members - {x.user} + {x.user} == members;
  }

  // ---------------------------------------------------------------------------------------
  // Confluence
  // ---------------------------------------------------------------------------------------

  ghost predicate IsEvents(actions: seq<Action>) {
    forall i :: 0 <= i < |actions| ==> actions[i].Contributed? || actions[i].Paid?
  }

  ghost function Contributions(actions: seq<Action>): (r: set<Contribution>) {
    set a | a in actions && a.Contributed? :: a.contribution
  }

  ghost function Payouts(actions: seq<Action>): (r: set<Payout>) {
    set a | a in actions && a.Paid? :: a.payout
  }

  /** The events are distinct to the database: no two different ones fall under one unique index. */
  ghost predicate Compatible(actions: seq<Action>) {
    && (forall x, y :: x in Contributions(actions) && y in Contributions(actions) && x != y ==> !Clash(x, y))
    && (forall p, q :: p in Payouts(actions) && q in Payouts(actions) && p != q ==> p.tx != q.tx)
  }

  ghost function NewContributions(db: Db, actions: seq<Action>): (r: set<Contribution>) {
    set x | x in Contributions(actions) && Insertable(db, x)
  }

  ghost function NewPayouts(db: Db, actions: seq<Action>): (r: set<Payout>) {
    set p | p in Payouts(actions) && PayoutInsertable(db, p)
  }

  /** r is the round that the rows recorded since before call for: an upper bound of the initial
      round, the rounds closed by new payouts and the funded rounds with new contributions, and one
      of them. It mentions no order. */
  ghost predicate RoundFor(r: int, before: Db, after: Db, c: nat)
    requires c in before.circles
  {
    var n := |Active(before.active, c)|;
    var paid := after.payouts - before.payouts;
    var added := after.contributions - before.contributions;
    && before.circles[c].currentRound <= r
    && (forall p :: p in paid && p.circle == c ==> p.round + 1 <= r)
    && (forall x :: x in added && x.circle == c && Funded(after.contributions, c, x.round, n) ==> x.round + 1 <= r)
    && (|| r == before.circles[c].currentRound
        || (exists p :: p in paid && p.circle == c && p.round + 1 == r)
        || (exists x :: x in added && x.circle == c && Funded(after.contributions, c, x.round, n) && x.round + 1 == r))
  }

  lemma AppendEvent(init: seq<Action>, a: Action)
    requires Compatible(init + [a])
    ensures Contributions(init + [a]) == Contributions(init) + if a.Contributed? then {a.contribution} else {}
    ensures Payouts(init + [a]) == Payouts(init) + if a.Paid? then {a.payout} else {}
    ensures Compatible(init)
  {
  }

  lemma InsertableLater(db: Db, mid: Db, init: seq<Action>, x: Contribution)
    requires mid.contributions == db.contributions + NewContributions(db, init) && mid.circles.Keys == db.circles.Keys
    requires forall y :: y in Contributions(init) && y != x ==> !Clash(x, y)
    ensures Insertable(mid, x) <==> Insertable(db, x) && x !in NewContributions(db, init)
  {
    if x in NewContributions(db, init) {
      assert Clash(x, x);
    }
  }

  ghost predicate RecordedOnce(db: Db, end: Db, actions: seq<Action>) {
    && end.contributions == db.contributions + NewContributions(db, actions)
    && end.payouts == db.payouts + NewPayouts(db, actions)
    && end.active == db.active && end.circles.Keys == db.circles.Keys
  }

  lemma ContributionRecordedOnce(db: Db, mid: Db, init: seq<Action>, x: Contribution)
    requires RecordedOnce(db, mid, init) && Compatible(init + [Contributed(x)])
    ensures RecordedOnce(db, Step(mid, Contributed(x)), init + [Contributed(x)])
  {
    var actions := init + [Contributed(x)];
    AppendEvent(init, Contributed(x));
    InsertableLater(db, mid, init, x);
    assert NewContributions(db, actions) == NewContributions(db, init) + if Insertable(db, x) then {x} else {};
    assert NewPayouts(db, actions) == NewPayouts(db, init);
  }

  lemma PayoutRecordedOnce(db: Db, mid: Db, init: seq<Action>, p: Payout)
    requires RecordedOnce(db, mid, init) && Compatible(init + [Paid(p)])
    ensures RecordedOnce(db, Step(mid, Paid(p)), init + [Paid(p)])
  {
    var actions := init + [Paid(p)];
    AppendEvent(init, Paid(p));
    assert NewContributions(db, actions) == NewContributions(db, init);
    assert NewPayouts(db, actions) == NewPayouts(db, init) + if PayoutInsertable(db, p) then {p} else {};
    assert p in Payouts(actions);
    assert PayoutInsertable(mid, p) <==> PayoutInsertable(db, p) && p !in NewPayouts(db, init);
  }

  /** What the unique indexes leave: exactly the distinct insertable events, in whatever order and
      however often they arrive. */
  lemma {:induction false} EventsAreRecordedOnce(db: Db, actions: seq<Action>)
    requires IsEvents(actions) && Compatible(actions)
    ensures RecordedOnce(db, Run(db, actions), actions)
    decreases |actions|
  {
    if actions != [] {
      var init, a := actions[..|actions| - 1], actions[|actions| - 1];
      assert actions == init + [a];
      AppendEvent(init, a);
      EventsAreRecordedOnce(db, init);
      if a.Contributed? {
        ContributionRecordedOnce(db, Run(db, init), init, a.contribution);
      } else {
        PayoutRecordedOnce(db, Run(db, init), init, a.payout);
      }
    }
  }

  lemma FundersGrow(rows: set<Contribution>, x: Contribution, c: nat, round: int, n: nat)
    ensures Funded(rows, c, round, n) ==> Funded(rows + {x}, c, round, n)
    ensures x.circle != c || x.round != round ==> Funded(rows + {x}, c, round, n) == Funded(rows, c, round, n)
  {
    var small, big := Funders(rows, c, round), Funders(rows + {x}, c, round);
    assert big == small + if x.circle == c && x.round == round then {x.user} else {};
  }

  lemma RoundStep(db: Db, mid: Db, a: Action, c: nat)
    requires c in db.circles && c in mid.circles && !mid.circles[c].deleted
    requires a.Contributed? || a.Paid?
    requires mid.active == db.active && db.contributions <= mid.contributions && db.payouts <= mid.payouts
    requires RoundFor(mid.circles[c].currentRound, db, mid, c)
    ensures c in Step(mid, a).circles
    ensures RoundFor(Step(mid, a).circles[c].currentRound, db, Step(mid, a), c)
  {
    var end := Step(mid, a);
    var n := |Active(db.active, c)|;
    var was, r := mid.circles[c].currentRound, end.circles[c].currentRound;
    if a.Contributed? && Insertable(mid, a.contribution) {
      var x := a.contribution;
      assert x !in mid.contributions by {
        if x in mid.contributions { assert Clash(x, x); }
      }
      forall y | y in end.contributions - db.contributions && y.circle == c && Funded(end.contributions, c, y.round, n)
        ensures y.round + 1 <= r
      {
        FundersGrow(mid.contributions, x, c, y.round, n);
      }
      if r == was && r != db.circles[c].currentRound {
        if y :| y in mid.contributions - db.contributions && y.circle == c
                && Funded(mid.contributions, c, y.round, n) && y.round + 1 == r {
          FundersGrow(mid.contributions, x, c, y.round, n);
          assert y in end.contributions - db.contributions;
        }
      }
    } else if a.Paid? && PayoutInsertable(mid, a.payout) {
      assert a.payout !in mid.payouts;
    }
  }

  /** The round a run of events leads to is decided by the rows it leaves, not by their order. */
  lemma {:induction false} EventsDecideTheRound(db: Db, actions: seq<Action>, c: nat)
    requires IsEvents(actions) && c in db.circles
    ensures var end := Run(db, actions);
      && c in end.circles && end.circles[c].deleted == db.circles[c].deleted
      && end.active == db.active && db.contributions <= end.contributions && db.payouts <= end.payouts
      && (db.circles[c].deleted ==> end.circles[c] == db.circles[c])
      && (!db.circles[c].deleted ==> RoundFor(end.circles[c].currentRound, db, end, c))
    decreases |actions|
  {
    if actions != [] {
      var init, a := actions[..|actions| - 1], actions[|actions| - 1];
      EventsDecideTheRound(db, init, c);
      if !db.circles[c].deleted {
        RoundStep(db, Run(db, init), a, c);
      }
    }
  }

  /** Confluence: with the active members fixed, any two arrival orders of the same distinct
      contributions and payouts, with any replays, end in the same database, so in particular with
      the same totals and the same current rounds. */
  lemma OrderDoesNotMatter(db: Db, a: seq<Action>, b: seq<Action>)
    requires IsEvents(a) && IsEvents(b)
    requires Compatible(a) && forall e :: e in a <==> e in b
    ensures Run(db, a) == Run(db, b)
  {
    assert Contributions(a) == Contributions(b) && Payouts(a) == Payouts(b);
    EventsAreRecordedOnce(db, a);
    EventsAreRecordedOnce(db, b);
    var enda, endb := Run(db, a), Run(db, b);
    assert enda.contributions == endb.contributions && enda.payouts == endb.payouts;
    forall c | c in db.circles ensures c in enda.circles && c in endb.circles && enda.circles[c] == endb.circles[c] {
      EventsDecideTheRound(db, a, c);
      EventsDecideTheRound(db, b, c);
      TotalsAreConserved(db, a, c);
      TotalsAreConserved(db, b, c);
    }
    assert enda.circles == endb.circles;
  }

  // ---------------------------------------------------------------------------------------
  // The transactions as they run
  // ---------------------------------------------------------------------------------------

  /** Where a transaction is made to fail. */
  datatype Fault = NoFault | AtBegin | AtLock | AtInsert | AtCounting | AtUpdate | AtCommit

  datatype TxResult = Committed(advanced: bool, nextRound: int) | Conflict | UnknownCircle | Failed

  class CircleStore {
    var circles: map<nat, Circle>
    var contributions: set<Contribution>
    var payouts: set<Payout>
    var active: map<nat, set<nat>>

    ghost function Contents(): (db: Db)
      reads this
    {
      Db(circles, contributions, payouts, active)
    }

    /** Records a contribution and moves the circle's counters in one transaction. Whatever fails,
        the write is all or nothing, and a replay is a conflict that changes nothing. */
    method ApplyContribution(x: Contribution, fault: Fault) returns (r: TxResult)
      modifies this
      ensures Contents() == if r.Committed? then Contribute(old(Contents()), x) else old(Contents())
      ensures r.Committed? ==> Insertable(old(Contents()), x) && r.nextRound == x.round + 1
      ensures r.Committed? ==>
        (r.advanced <==> Funded(contributions, x.circle, x.round, |Active(active, x.circle)|))
      ensures fault == NoFault && Insertable(old(Contents()), x) ==> r.Committed?
      ensures fault == NoFault && x.circle !in old(circles) ==> r == UnknownCircle
      ensures fault == NoFault && x.circle in old(circles) && !Insertable(old(Contents()), x) ==> r == Conflict
    {
      var savedCircles, savedRows := circles, contributions;
      if fault == AtBegin || fault == AtLock || fault == AtInsert {
        return Failed;
      }
      if x.circle !in circles {
        return UnknownCircle;
      }
      if exists y :: y in contributions && Clash(x, y) {
        return Conflict;
      }
      contributions := contributions + {x};
      if fault == AtCounting {
        contributions := savedRows;
        return Failed;
      }
      var contributed := |Funders(contributions, x.circle, x.round)|;
      var activeMembers := |Active(active, x.circle)|;
      var complete := activeMembers > 0 && contributed >= activeMembers;
      var next := x.round + 1;
      if fault == AtUpdate {
        contributions := savedRows;
        return Failed;
      }
      var c := circles[x.circle];
      if !c.deleted {
        circles := circles[x.circle := c.(total := c.total + x.amount,
                                          currentRound := if complete then Max(c.currentRound, next)
                                              else c.currentRound)];
      }
      if fault == AtCommit {
        contributions, circles := savedRows, savedCircles;
        return Failed;
      }
      return Committed(complete, next);
    }

    /** Records a payout and closes its round in one transaction. */
    method RecordPayoutAndAdvance(p: Payout, fault: Fault) returns (r: TxResult)
      modifies this
      ensures Contents() == if r.Committed? then Pay(old(Contents()), p) else old(Contents())
      ensures r.Committed? ==> PayoutInsertable(old(Contents()), p)
      ensures fault == NoFault && PayoutInsertable(old(Contents()), p) ==> r.Committed?
      ensures r.Committed? ==> r.nextRound == p.round + 1
      ensures fault == NoFault && p.circle !in old(circles) ==> r == UnknownCircle
      ensures fault == NoFault && p.circle in old(circles) && !PayoutInsertable(old(Contents()), p) ==> r == Conflict
    {
      var savedCircles, savedRows := circles, payouts;
      if fault == AtBegin || fault == AtLock || fault == AtInsert {
        return Failed;
      }
      if p.circle !in circles {
        return UnknownCircle;
      }
      if exists q :: q in payouts && q.tx == p.tx {
        return Conflict;
      }
      payouts := payouts + {p};
      if fault == AtUpdate {
        payouts := savedRows;
        return Failed;
      }
      var c := circles[p.circle];
      if !c.deleted {
        circles := circles[p.circle := c.(currentRound := Max(c.currentRound, p.round + 1))];
      }
      if fault == AtCommit {
        payouts, circles := savedRows, savedCircles;
        return Failed;
      }
      return Committed(true, p.round + 1);
    }
  }
}
