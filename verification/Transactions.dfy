/** Write transactions with nested savepoints and bounded retry. The database is any value type;
    a connection is the current database under a stack of snapshots. */
module Transactions {
  import opened Models

  /** What an exception is to the retry loop: a lock is worth another attempt. */
  datatype Error = Locked | Other

  /** What a write operation does, statement by statement: it changes the database, it raises, or
      it runs a nested write, whose own SAVEPOINT and RELEASE may raise, and whose error the
      operation either catches or passes on. */
  datatype Node<!D> =
    | Write(effect: D -> D)
    | Raise(error: Error)
    | Nested(begin: Option<Error>, body: seq<Node<D>>, release: Option<Error>, caught: bool)

  /** One attempt of an outermost write. */
  datatype Attempt<!D> = Attempt(begin: Option<Error>, body: seq<Node<D>>, commit: Option<Error>)

  /** The error that ends a body, if one does. */
  function Failure<D>(body: seq<Node<D>>): Option<Error>
    decreases body, 0
  {
    if body == [] then None
    else
      var e := NodeFailure(body[0]);
      if e.Some? then e else Failure(body[1..])
  }

  function NodeFailure<D>(node: Node<D>): Option<Error>
    decreases node, 0
  {
    match node
    case Write(_) => None
    case Raise(e) => Some(e)
    case Nested(begin, body, release, caught) => if caught then None else ScopeFailure(begin, body, release)
  }

  function ScopeFailure<D>(begin: Option<Error>, body: seq<Node<D>>, end: Option<Error>): Option<Error>
    decreases body, 1
  {
    if begin.Some? then begin
    else if Failure(body).Some? then Failure(body)
    else end
  }

  /** The writes of a body that stand outside every failed scope, in order, up to where it ends. */
  function Survivors<D>(body: seq<Node<D>>): seq<D -> D> {
    if body == [] then []
    else
      var first := NodeSurvivors(body[0]);
      if NodeFailure(body[0]).Some? then first else first + Survivors(body[1..])
  }

  function NodeSurvivors<D>(node: Node<D>): seq<D -> D> {
    match node
    case Write(f) => [f]
    case Raise(_) => []
    case Nested(begin, body, release, _) =>
      if ScopeFailure(begin, body, release).Some? then [] else Survivors(body)
  }

  function Apply<D>(writes: seq<D -> D>, d: D): D {
    if writes == [] then d else Apply(writes[1..], writes[0](d))
  }

  lemma {:induction false} ApplyConcat<D>(xs: seq<D -> D>, ys: seq<D -> D>, d: D)
    ensures Apply(xs + ys, d) == Apply(ys, Apply(xs, d))
  {
    if xs == [] {
      assert xs + ys == ys;
    } else {
      ApplyConcat(xs[1..], ys, xs[0](d));
      assert (xs + ys)[1..] == xs[1..] + ys;
    }
  }

  function AttemptFailure<D>(a: Attempt<D>): Option<Error> {
    ScopeFailure(a.begin, a.body, a.commit)
  }

  /** The index of the attempt that decides: the first that does not fail on a lock, or the one
      after the last retry. */
  function Deciding<D>(script: nat -> Attempt<D>, retries: nat, k: nat): (last: nat)
    requires k <= retries
    ensures k <= last <= retries
    ensures forall i | k <= i < last :: AttemptFailure(script(i)) == Some(Locked)
    ensures last == retries || AttemptFailure(script(last)) != Some(Locked)
    decreases retries - k
  {
    if k == retries || AttemptFailure(script(k)) != Some(Locked) then k
    else Deciding(script, retries, k + 1)
  }

  function Pow2(k: nat): nat {
    if k == 0 then 1 else 2 * Pow2(k - 1)
  }

  /** The pause before retry `k` + 1, and the total of the first `k` pauses. */
  function Backoff(initial: Time, k: nat): Time {
    if k == 0 then initial else Backoff(initial, k - 1) * 2.0
  }

  function TotalBackoff(initial: Time, k: nat): Time {
    if k == 0 then 0.0 else TotalBackoff(initial, k - 1) + Backoff(initial, k - 1)
  }

  lemma {:induction false} BackoffDoubles(initial: Time, k: nat)
    ensures Backoff(initial, k) == initial * Pow2(k) as real
    ensures TotalBackoff(initial, k) == initial * (Pow2(k) - 1) as real
  {
    if k > 0 {
      BackoffDoubles(initial, k - 1);
      var p := Pow2(k - 1) as real;
      assert initial * (2.0 * p) == (initial * p) * 2.0;
      assert initial * (p - 1.0) + initial * p == initial * (2.0 * p - 1.0);
    }
  }

  // How an attempt ends, told without the functions above

  /** Running this node raises nothing. */
  predicate Quiet<D>(node: Node<D>) {
    match node
    case Write(_) => true
    case Raise(_) => false
    case Nested(begin, body, release, caught) =>
      caught || (begin.None? && (forall i | 0 <= i < |body| :: Quiet(body[i])) && release.None?)
  }

  /** Running this node raises this error: its own, the one its nested write begins with, the first
      one reached inside, or the one its RELEASE ends with. */
  predicate Raises<D>(node: Node<D>, e: Error) {
    match node
    case Write(_) => false
    case Raise(own) => own == e
    case Nested(begin, body, release, caught) =>
      && !caught
      && if begin.Some? then begin.value == e
         else if forall i | 0 <= i < |body| :: Quiet(body[i]) then release == Some(e)
         else exists k :: 0 <= k < |body| && Raises(body[k], e) && forall i | 0 <= i < k :: Quiet(body[i])
  }

  /** This error is the first one a body reaches. */
  predicate Reaches<D>(body: seq<Node<D>>, e: Error) {
    exists k :: 0 <= k < |body| && Raises(body[k], e) && forall i | 0 <= i < k :: Quiet(body[i])
  }

  predicate AllQuiet<D>(body: seq<Node<D>>) {
    forall i | 0 <= i < |body| :: Quiet(body[i])
  }

  /** An attempt ends in its BEGIN's own error, else in the first error its body reaches, else in
      its COMMIT's; without any of them it succeeds. */
  predicate EndsIn<D>(a: Attempt<D>, e: Option<Error>) {
    if a.begin.Some? then e == a.begin
    else if AllQuiet(a.body) then e == a.commit
    else e.Some? && Reaches(a.body, e.value)
  }

  lemma {:induction false} FailureIsFirst<D>(body: seq<Node<D>>)
    ensures Failure(body).None? <==> AllQuiet(body)
    ensures forall e :: Failure(body) == Some(e) <==> Reaches(body, e)
    decreases body, 1
  {
    if body != [] {
      NodeFailureIs(body[0]);
      FailureIsFirst(body[1..]);
      var rest := body[1..];
      assert forall i | 0 <= i < |rest| :: rest[i] == body[i + 1];
      assert forall i | 1 <= i < |body| :: body[i] == rest[i - 1];
      forall e
        ensures Failure(body) == Some(e) <==> Reaches(body, e)
      {
        if Reaches(body, e) {
          var k :| 0 <= k < |body| && Raises(body[k], e) && forall i | 0 <= i < k :: Quiet(body[i]);
          if k > 0 {
            assert Raises(rest[k - 1], e) && forall i | 0 <= i < k - 1 :: Quiet(rest[i]);
          }
        }
        if Failure(body) == Some(e) && Quiet(body[0]) {
          var k :| 0 <= k < |rest| && Raises(rest[k], e) && forall i | 0 <= i < k :: Quiet(rest[i]);
          assert Raises(body[k + 1], e) && forall i | 0 <= i < k + 1 :: Quiet(body[i]);
        }
      }
    }
  }

  lemma {:induction false} NodeFailureIs<D>(node: Node<D>)
    ensures NodeFailure(node).None? <==> Quiet(node)
    ensures forall e :: NodeFailure(node) == Some(e) <==> Raises(node, e)
    decreases node, 0
  {
    if node.Nested? {
      FailureIsFirst(node.body);
      assert AllQuiet(node.body) <==> forall i | 0 <= i < |node.body| :: Quiet(node.body[i]);
      forall e
        ensures NodeFailure(node) == Some(e) <==> Raises(node, e)
      {
        assert Failure(node.body) == Some(e) <==> Reaches(node.body, e);
      }
    }
  }

  /** An attempt's error is the first one it reaches, in the order in which it runs. */
  lemma ErrorIsFirstReached<D>(a: Attempt<D>, e: Option<Error>)
    ensures AttemptFailure(a) == e <==> EndsIn(a, e)
  {
    FailureIsFirst(a.body);
    if e.Some? {
      assert Failure(a.body) == Some(e.value) <==> Reaches(a.body, e.value);
    }
  }

  /** The attempts before `k` all end on a lock. */
  ghost predicate LockedUntil<D>(script: nat -> Attempt<D>, k: nat) {
    forall i: nat | i < k :: EndsIn(script(i), Some(Locked))
  }

  /** The attempt that decides: all before it end on a lock, and it does not, or is the last one. */
  ghost predicate Decides<D>(script: nat -> Attempt<D>, retries: nat, k: nat) {
    k <= retries && LockedUntil(script, k) && (k == retries || !EndsIn(script(k), Some(Locked)))
  }

  lemma DecidesAt<D>(script: nat -> Attempt<D>, retries: nat, k: nat)
    ensures Decides(script, retries, k) <==> k == Deciding(script, retries, 0)
  {
    var last := Deciding(script, retries, 0);
    forall i: nat
      ensures AttemptFailure(script(i)) == Some(Locked) <==> EndsIn(script(i), Some(Locked))
    {
      ErrorIsFirstReached(script(i), Some(Locked));
    }
  }

  /** What a first attempt that succeeds, or fails for good, leads to. */
  lemma DecisionIs<D>(script: nat -> Attempt<D>, retries: nat)
    ensures var n := Deciding(script, retries, 0);
      Decides(script, retries, n) && EndsIn(script(n), AttemptFailure(script(n)))
    ensures forall k: nat, e {:trigger EndsIn(script(k), e)} |
      k <= retries && LockedUntil(script, k) && EndsIn(script(k), e) && e != Some(Locked) ::
        Deciding(script, retries, 0) == k && AttemptFailure(script(k)) == e
  {
    var n := Deciding(script, retries, 0);
    DecidesAt(script, retries, n);
    ErrorIsFirstReached(script(n), AttemptFailure(script(n)));
    forall k: nat, e | k <= retries && LockedUntil(script, k) && EndsIn(script(k), e) && e != Some(Locked)
      ensures Deciding(script, retries, 0) == k && AttemptFailure(script(k)) == e
    {
      ErrorIsFirstReached(script(k), e);
      ErrorIsFirstReached(script(k), Some(Locked));
      DecidesAt(script, retries, k);
    }
  }

  class Connection<D> {
    var current: D
    var snapshots: seq<D>

    constructor (d: D)
      ensures current == d && snapshots == []
    {
      current := d;
      snapshots := [];
    }

    method Begin()
      requires snapshots == []
      modifies this
      ensures current == old(current) && snapshots == [old(current)]
    {
      snapshots := [current];
    }

    method Savepoint()
      modifies this
      ensures current == old(current) && snapshots == old(snapshots) + [old(current)]
    {
      snapshots := snapshots + [current];
    }

    method Release()
      requires snapshots != []
      modifies this
      ensures current == old(current) && snapshots == old(snapshots)[..|old(snapshots)| - 1]
    {
      snapshots := snapshots[..|snapshots| - 1];
    }

    method RollbackTo()
      requires snapshots != []
      modifies this
      ensures current == old(snapshots)[|old(snapshots)| - 1] && snapshots == old(snapshots)
    {
      current := snapshots[|snapshots| - 1];
    }

    method Rollback()
      modifies this
      ensures current == (if old(snapshots) == [] then old(current) else old(snapshots)[0]) && snapshots == []
    {
      if snapshots != [] {
        current := snapshots[0];
      }
      snapshots := [];
    }

    /** Runs an operation's statements. Whatever is nested in it, the database ends as if only its
        surviving writes had run, and the nesting depth is what it was. */
    method RunBody(body: seq<Node<D>>) returns (error: Option<Error>)
      modifies this
      ensures error == Failure(body)
      ensures current == Apply(Survivors(body), old(current)) && snapshots == old(snapshots)
      decreases body, 0
    {
      error := None;
      var i := 0;
      while i < |body| && error.None?
        invariant i <= |body| && snapshots == old(snapshots)
        invariant error.None? ==> Failure(body) == Failure(body[i..])
        invariant error.None? ==> Apply(Survivors(body), old(current)) == Apply(Survivors(body[i..]), current)
        invariant error.Some? ==> error == Failure(body) && current == Apply(Survivors(body), old(current))
      {
        var node := body[i];
        assert body[i..][0] == node && body[i..][1..] == body[i + 1..];
        label before:
        match node {
          case Write(effect) => current := effect(current);
          case Raise(e) => error := Some(e);
          case Nested(begin, inner, release, caught) =>
            var e := WriteSavepoint(begin, inner, release);
            error := if caught then None else e;
        }
        assert error == NodeFailure(node);
        assert current == Apply(NodeSurvivors(node), old@before(current));
        ApplyConcat(NodeSurvivors(node), Survivors(body[i + 1..]), old@before(current));
        i := i + 1;
      }
    }

    /** A nested write: all of it, or none of it and the state before it. */
    method WriteSavepoint(begin: Option<Error>, body: seq<Node<D>>, release: Option<Error>)
      returns (error: Option<Error>)
      modifies this
      ensures error == ScopeFailure(begin, body, release)
      ensures snapshots == old(snapshots)
      ensures current == if error.Some? then old(current) else Apply(Survivors(body), old(current))
      decreases body, 1
    {
      if begin.Some? {
        return begin;
      }
      Savepoint();
      error := RunBody(body);
      if error.None? && release.None? {
        Release();
      } else {
        error := if error.Some? then error else release;
        RollbackTo();
        Release();
      }
    }

    /** An outermost write. It makes one attempt more than it retries, at most `retries` + 1: it goes
        on exactly while attempts end on a lock. The last attempt's error is returned as it is; the
        database takes its effect if it succeeded and nothing otherwise. The first attempt that
        succeeds, or fails for good, is the last. And it sleeps initial * (2^k - 1) seconds over k
        retries, as BackoffDoubles sums it up. */
    method WriteTransaction(script: nat -> Attempt<D>, retries: nat, initialBackoff: Time)
      returns (error: Option<Error>, attempts: nat, slept: Time)
      requires snapshots == []
      modifies this
      ensures snapshots == []
      ensures attempts == Deciding(script, retries, 0) + 1 <= retries + 1
      ensures error == AttemptFailure(script(attempts - 1))
      ensures Decides(script, retries, attempts - 1) && EndsIn(script(attempts - 1), error)
      ensures forall k: nat, e {:trigger EndsIn(script(k), e)} |
        k <= retries && LockedUntil(script, k) && EndsIn(script(k), e) && e != Some(Locked) ::
          attempts == k + 1 && error == e
      ensures current == if error.Some? then old(current)
        else Apply(Survivors(script(attempts - 1).body), old(current))
      ensures slept == TotalBackoff(initialBackoff, attempts - 1)
    {
      DecisionIs(script, retries);
      var attempt := 0;
      var backoff := initialBackoff;
      slept := 0.0;
      while true
        invariant attempt <= retries && snapshots == [] && current == old(current)
        invariant Deciding(script, retries, 0) == Deciding(script, retries, attempt)
        invariant backoff == Backoff(initialBackoff, attempt) && slept == TotalBackoff(initialBackoff, attempt)
        decreases retries - attempt
      {
        var a := script(attempt);
        error := a.begin;
        if error.None? {
          Begin();
          error := RunBody(a.body);
          if error.None? {
            error := a.commit;
          }
          if error.None? {
            snapshots := [];
            return None, attempt + 1, slept;
          }
        }
        Rollback();
        if error != Some(Locked) || attempt >= retries {
          return error, attempt + 1, slept;
        }
        attempt := attempt + 1;
        slept := slept + backoff;
        backoff := backoff * 2.0;
      }
    }
  }

  // What the surviving writes are

  /** A scope that fails leaves nothing: cutting it out of the operation changes no outcome. */
  lemma {:induction false} FailedScopesVanish<D>(before: seq<Node<D>>, scope: Node<D>, after: seq<Node<D>>)
    requires scope.Nested? && scope.caught && ScopeFailure(scope.begin, scope.body, scope.release).Some?
    ensures Failure(before + [scope] + after) == Failure(before + after)
    ensures Survivors(before + [scope] + after) == Survivors(before + after)
  {
    if before == [] {
      assert before + [scope] + after == [scope] + after && before + after == after;
      assert ([scope] + after)[1..] == after;
    } else {
      FailedScopesVanish(before[1..], scope, after);
      assert (before + [scope] + after)[0] == before[0] == (before + after)[0];
      assert (before + [scope] + after)[1..] == before[1..] + [scope] + after;
      assert (before + after)[1..] == before[1..] + after;
    }
  }

  /** A scope that succeeds is transparent: its statements may stand in its place. */
  lemma {:induction false} SucceedingScopesFlatten<D>(before: seq<Node<D>>, scope: Node<D>, after: seq<Node<D>>)
    requires scope.Nested? && ScopeFailure(scope.begin, scope.body, scope.release).None?
    ensures Failure(before + [scope] + after) == Failure(before + scope.body + after)
    ensures Survivors(before + [scope] + after) == Survivors(before + scope.body + after)
  {
    if before == [] {
      assert before + [scope] + after == [scope] + after && before + scope.body + after == scope.body + after;
      assert ([scope] + after)[1..] == after;
      AfterSuccess(scope.body, after);
    } else {
      SucceedingScopesFlatten(before[1..], scope, after);
      assert (before + [scope] + after)[0] == before[0] == (before + scope.body + after)[0];
      assert (before + [scope] + after)[1..] == before[1..] + [scope] + after;
      assert (before + scope.body + after)[1..] == before[1..] + scope.body + after;
    }
  }

  lemma {:induction false} AfterSuccess<D>(body: seq<Node<D>>, after: seq<Node<D>>)
    requires Failure(body).None?
    ensures Failure(body + after) == Failure(after)
    ensures Survivors(body + after) == Survivors(body) + Survivors(after)
  {
    if body == [] {
      assert body + after == after;
    } else {
      AfterSuccess(body[1..], after);
      var first := NodeSurvivors(body[0]);
      assert first + (Survivors(body[1..]) + Survivors(after)) == first + Survivors(body[1..]) + Survivors(after);
      assert (body + after)[0] == body[0] && (body + after)[1..] == body[1..] + after;
    }
  }
}
