/**
 The in-memory list of revoked token ids, with deletion of expired entries on lookup and an hourly
 sweep.  It answers as the full history of revocations does.
 */
module TokenRevocation {
  import opened Options

  datatype Op = Revoke(jti: string, exp: real, now: real) | Query(jti: string, now: real)

  const CLEANUP_INTERVAL := 3600.0

  /** The expiry given by the latest revocation of the id. */
  function Latest(ops: seq<Op>, jti: string): Option<real> {
    if ops == [] then None
    else
      var last := ops[|ops| - 1];
      if last.Revoke? && last.jti == jti then Some(last.exp) else Latest(ops[..|ops| - 1], jti)
  }

  /** Revoked at `now`: the latest revocation has not expired. */
  predicate RevokedAt(ops: seq<Op>, jti: string, now: real) {
    Latest(ops, jti).Some? && Latest(ops, jti).value > now
  }

  /** Position i revokes the id, and no later one does. */
  ghost predicate LastRevocation(ops: seq<Op>, jti: string, i: nat) {
    && i < |ops| && ops[i].Revoke? && ops[i].jti == jti
    && forall k: nat :: i < k < |ops| && ops[k].Revoke? ==> ops[k].jti != jti
  }

  /** Revoked: some revocation of the id is the last and expires later. */
  lemma {:induction false} RevokedMeans(ops: seq<Op>, jti: string, now: real)
    ensures RevokedAt(ops, jti, now) <==> exists i: nat :: LastRevocation(ops, jti, i) && ops[i].exp > now
  {
    if ops != [] {
      var n := |ops| - 1;
      if ops[n].Revoke? && ops[n].jti == jti {
        assert LastRevocation(ops, jti, n);
      } else {
        RevokedMeans(ops[..n], jti, now);
        forall i: nat ensures LastRevocation(ops, jti, i) <==> LastRevocation(ops[..n], jti, i) {
          NoRevocationAtEnd(ops, jti, i);
        }
      }
    }
  }

  lemma NoRevocationAtEnd(ops: seq<Op>, jti: string, i: nat)
    requires ops != [] && !(ops[|ops| - 1].Revoke? && ops[|ops| - 1].jti == jti)
    ensures LastRevocation(ops, jti, i) <==> LastRevocation(ops[..|ops| - 1], jti, i)
  {
    var front := ops[..|ops| - 1];
    if i < |front| {
      assert ops[i] == front[i];
      forall k: nat | i < k < |ops| && ops[k].Revoke? && LastRevocation(front, jti, i) ensures ops[k].jti != jti {
        if k < |front| { assert ops[k] == front[k]; }
      }
    }
  }

  lemma LatestAppend(ops: seq<Op>, op: Op, jti: string)
    ensures Latest(ops + [op], jti) == if op.Revoke? && op.jti == jti then Some(op.exp) else Latest(ops, jti)
  {
    assert (ops + [op])[..|ops|] == ops;
  }

  /** What is stored is the latest expiry; what is not stored has expired or was never revoked. */
  ghost predicate Agrees(revoked: map<string, real>, ops: seq<Op>, clock: real) {
    forall jti ::
      if jti in revoked then Latest(ops, jti) == Some(revoked[jti])
      else Latest(ops, jti).None? || Latest(ops, jti).value <= clock
  }

  predicate Due(lastCleanup: real, now: real) { now - lastCleanup > CLEANUP_INTERVAL }

  class RevocationList {
    var revoked: map<string, real>
    var lastCleanup: real
    ghost var ops: seq<Op>
    ghost var clock: real

    ghost predicate Valid()
      reads this
    {
      Agrees(revoked, ops, clock)
    }

    constructor (ghost start: real)
      ensures Valid() && ops == [] && clock == start
    {
      revoked, lastCleanup, ops, clock := map[], 0.0, [], start;
    }

    method RevokeToken(jti: string, exp: real, now: real)
      requires Valid() && clock <= now
      modifies this
      ensures Valid() && clock == now && ops == old(ops) + [Revoke(jti, exp, now)]
      ensures lastCleanup == if now - old(lastCleanup) > 3600.0 then now else old(lastCleanup)
      ensures var all := old(revoked)[jti := exp];
        revoked == if now - old(lastCleanup) > 3600.0 then map j | j in all && all[j] > now :: all[j] else all
    {
      hide Latest;
      forall j ensures Latest(ops + [Revoke(jti, exp, now)], j) == if j == jti then Some(exp) else Latest(ops, j) {
        LatestAppend(ops, Revoke(jti, exp, now), j);
      }
      revoked := revoked[jti := exp];
      if Due(lastCleanup, now) {
        revoked := map j | j in revoked && !(revoked[j] <= now) :: revoked[j];
        lastCleanup := now;
      }
      ops, clock := ops + [Revoke(jti, exp, now)], now;
    }

    method IsTokenRevoked(jti: string, now: real) returns (r: bool)
      requires Valid() && clock <= now
      modifies this
      ensures Valid() && clock == now && ops == old(ops) + [Query(jti, now)]
      ensures r <==> RevokedAt(old(ops), jti, now)
      ensures lastCleanup == old(lastCleanup)
      ensures revoked == if r then old(revoked) else old(revoked) - {jti}
    {
      hide Latest;
      forall j ensures Latest(ops + [Query(jti, now)], j) == Latest(ops, j) {
        LatestAppend(ops, Query(jti, now), j);
      }
      assert Agrees(revoked, ops, now);
      ops, clock := ops + [Query(jti, now)], now;
      if jti !in revoked { return false; }
      if revoked[jti] <= now {
        revoked := revoked - {jti};
        return false;
      }
      return true;
    }
  }

  ghost predicate AnswerOk(run: seq<Op>, i: nat, answer: bool)
    requires i < |run|
  {
    run[i].Query? ==> (answer <==> RevokedAt(run[..i], run[i].jti, run[i].now))
  }

  /** Every query of a run under a non-decreasing clock is answered from full history. */
  method AnswerAll(run: seq<Op>) returns (answers: seq<bool>)
    requires forall i, j :: 0 <= i < j < |run| ==> run[i].now <= run[j].now
    ensures |answers| == |run| && forall i :: 0 <= i < |run| ==> AnswerOk(run, i, answers[i])
  {
    answers := [];
    if run == [] { return; }
    var list := new RevocationList(run[0].now);
    for n := 0 to |run|
      invariant list.Valid() && fresh(list) && list.ops == run[..n] && |answers| == n
      invariant list.clock <= run[if n == 0 then 0 else n - 1].now
      invariant forall i :: 0 <= i < n ==> AnswerOk(run, i, answers[i])
    {
      assert run[..n + 1] == run[..n] + [run[n]];
      var answer := false;
      match run[n] {
        case Revoke(jti, exp, now) => list.RevokeToken(jti, exp, now);
        case Query(jti, now) => answer := list.IsTokenRevoked(jti, now);
      }
      answers := answers + [answer];
    }
  }
}
