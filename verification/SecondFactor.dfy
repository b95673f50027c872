/**
 The second factor of an account: one-time codes of a shared secret, and the
 recovery codes. A verification reads the row, and claims by a conditional UPDATE
 later; any number of them interleave between the two.
 */
module SecondFactor {
  import opened Wrappers

  const DIGITS := 6
  const STEP_SECONDS := 30

  /** The code of a secret at a step: HOTP truncation, left abstract. */
  type CodeOf = (string, int) -> string

  function StepFor(now: int): int {
    now / STEP_SECONDS
  }

  function Normalised(text: string): string {
    if text == [] then []
    else (if '0' <= text[0] <= '9' then [text[0]] else []) + Normalised(text[1..])
  }

  /** Two instants share a step exactly within the same half minute. */
  lemma StepIs(now: int, step: int)
    ensures StepFor(now) == step <==> 30 * step <= now < 30 * (step + 1)
  {
  }

  predicate IsDigit(c: char) {
    c in "0123456789"
  }

  /** Of a typed text the digits count, in order, and nothing else. */
  lemma {:induction false} NormalisedIs(a: string, c: char, b: string)
    ensures Normalised(a + [c] + b) == Normalised(a) + (if IsDigit(c) then [c] else []) + Normalised(b)
    ensures Normalised([]) == []
  {
    if a == [] {
      assert a + [c] + b == [c] + b && ([c] + b)[1..] == b;
    } else {
      assert (a + [c] + b)[1..] == a[1..] + [c] + b;
      NormalisedIs(a[1..], c, b);
    }
  }

  // ---------- which step a code belongs to ----------

  /** The first step in [step, last] above `floor` whose code this is. */
  function FirstMatch(code: CodeOf, secret: string, text: string, floor: int, step: int, last: int): Option<int>
    decreases last - step
  {
    if step > last then None
    else if step > floor && code(secret, step) == text then Some(step)
    else FirstMatch(code, secret, text, floor, step + 1, last)
  }

  function Match(code: CodeOf, secret: string, text: string, lastStep: Option<int>, now: int): Option<int> {
    if |Normalised(text)| != DIGITS then None
    else
      FirstMatch(code, secret, Normalised(text), lastStep.UnwrapOr(0), StepFor(now) - 1, StepFor(now) + 1)
  }

  predicate OpensAt(code: CodeOf, secret: string, text: string, lastStep: Option<int>, now: int, step: int) {
    && StepFor(now) - 1 <= step <= StepFor(now) + 1
    && step > lastStep.UnwrapOr(0)
    && |Normalised(text)| == DIGITS && Normalised(text) == code(secret, step)
  }

  /** A code opens a step for the half minute before it, its own and the one after it, with six digits. */
  lemma OpensAtIff(code: CodeOf, secret: string, text: string, lastStep: Option<int>, now: int, step: int)
    ensures OpensAt(code, secret, text, lastStep, now, step) <==>
      && 30 * (step - 1) <= now < 30 * (step + 2) && (if lastStep.Some? then step > lastStep.value else step > 0)
      && |Normalised(text)| == 6 && Normalised(text) == code(secret, step)
  {
    StepIs(now, StepFor(now));
  }

  lemma {:induction false} FirstMatchIsFirst(code: CodeOf, secret: string, text: string, floor: int,
                                             step: int, last: int)
    ensures match FirstMatch(code, secret, text, floor, step, last)
            case Some(k) =>
              && step <= k <= last && k > floor && code(secret, k) == text
              && forall j :: step <= j < k && j > floor ==> code(secret, j) != text
            case None => forall j :: step <= j <= last && j > floor ==> code(secret, j) != text
    decreases last - step
  {
    if step <= last {
      FirstMatchIsFirst(code, secret, text, floor, step + 1, last);
    }
  }

  /** A match is the earliest unspent step around now whose code was typed; no match means there is none. */
  lemma MatchIsEarliest(code: CodeOf, secret: string, text: string, lastStep: Option<int>, now: int)
    ensures match Match(code, secret, text, lastStep, now)
            case Some(k) =>
              && OpensAt(code, secret, text, lastStep, now, k)
              && forall j :: j < k ==> !OpensAt(code, secret, text, lastStep, now, j)
            case None => forall j :: !OpensAt(code, secret, text, lastStep, now, j)
  {
    FirstMatchIsFirst(code, secret, Normalised(text), lastStep.UnwrapOr(0), StepFor(now) - 1, StepFor(now) + 1);
  }

  method Matches(code: CodeOf, secret: string, text: string, lastStep: Option<int>, now: int)
    returns (found: Option<int>)
    ensures found == Match(code, secret, text, lastStep, now)
  {
    var typed := Normalised(text);
    if |typed| != DIGITS {
      return None;
    }
    var current := StepFor(now);
    var step := current - 1;
    while step <= current + 1
      invariant current - 1 <= step <= current + 2
      invariant Match(code, secret, text, lastStep, now)
             == FirstMatch(code, secret, typed, lastStep.UnwrapOr(0), step, current + 1)
      decreases current + 2 - step
    {
      if step > lastStep.UnwrapOr(0) && code(secret, step) == typed {
        return Some(step);
      }
      step := step + 1;
    }
    found := None;
  }

  // ---------- the claims ----------

  /** WHERE last_step IS NULL OR last_step < :step */
  predicate IsNew(lastStep: Option<int>, step: int) {
    lastStep.None? || lastStep.value < step
  }

  /** list.remove: the list without the first occurrence. */
  function Without(list: seq<string>, digest: string): seq<string> {
    if list == [] then []
    else if list[0] == digest then list[1..]
    else [list[0]] + Without(list[1..], digest)
  }

  lemma {:induction false} WithoutTakesOne(list: seq<string>, digest: string)
    requires digest in list
    ensures multiset(Without(list, digest)) + multiset{digest} == multiset(list)
  {
    assert list == [list[0]] + list[1..];
    if list[0] != digest {
      WithoutTakesOne(list[1..], digest);
    }
  }

  // ---------- concurrent verifications of one confirmed account ----------

  datatype Factor = Factor(secret: string, lastStep: Option<int>, recovery: seq<string>)

  /** What a verification read and means to claim. */
  datatype Claim =
    | OfCode(step: int, text: string, at: int)
    | OfRecovery(digest: string, seen: seq<string>)

  /** `codes` and `recoveries` are the claims that let someone in, in order. */
  datatype State = State(now: int, factor: Factor, pending: map<int, Claim>,
                         codes: seq<Claim>, recoveries: seq<string>)

  datatype Step =
    | Tick(dt: nat)
    | ReadCode(id: int, text: string)
    | ReadRecovery(id: int, digest: string)
    | TryClaim(id: int)

  predicate Enabled(code: CodeOf, s: State, e: Step) {
    match e
    case Tick(_) => true
    case ReadCode(id, text) =>
      id !in s.pending && Match(code, s.factor.secret, text, s.factor.lastStep, s.now).Some?
    case ReadRecovery(id, digest) => id !in s.pending && digest in s.factor.recovery
    case TryClaim(id) => id in s.pending
  }

  predicate Wins(s: State, c: Claim) {
    match c
    case OfCode(step, _, _) => IsNew(s.factor.lastStep, step)
    case OfRecovery(_, seen) => s.factor.recovery == seen
  }

  function Won(s: State, c: Claim): State {
    match c
    case OfCode(step, _, _) =>
      s.(factor := s.factor.(lastStep := Some(step)), codes := s.codes + [c])
    case OfRecovery(digest, seen) =>
      s.(factor := s.factor.(recovery := Without(seen, digest)), recoveries := s.recoveries + [digest])
  }

  function Apply(code: CodeOf, s: State, e: Step): State
    requires Enabled(code, s, e)
  {
    match e
    case Tick(dt) => s.(now := s.now + dt)
    case ReadCode(id, text) =>
      var step := Match(code, s.factor.secret, text, s.factor.lastStep, s.now).value;
      s.(pending := s.pending[id := OfCode(step, text, s.now)])
    case ReadRecovery(id, digest) =>
      s.(pending := s.pending[id := OfRecovery(digest, s.factor.recovery)])
    case TryClaim(id) =>
      var c := s.pending[id];
      var s' := s.(pending := s.pending - {id});
      if Wins(s, c) then Won(s', c) else s'
  }

  predicate Legal(code: CodeOf, s: State, steps: seq<Step>)
    decreases |steps|
  {
    steps == [] || (Enabled(code, s, steps[0]) && Legal(code, Apply(code, s, steps[0]), steps[1..]))
  }

  function After(code: CodeOf, s: State, steps: seq<Step>): State
    requires Legal(code, s, steps)
    decreases |steps|
  {
    if steps == [] then s else After(code, Apply(code, s, steps[0]), steps[1..])
  }

  /** As confirm leaves the account: the step of its own code spent, the list written. */
  predicate JustConfirmed(s: State, spent: int, list: seq<string>) {
    && s.factor.lastStep == Some(spent) && s.factor.recovery == list
    && s.pending == map[] && s.codes == [] && s.recoveries == []
  }

  /** A code claim names a step around the instant it was typed at, and carries that step's code. */
  predicate Genuine(code: CodeOf, secret: string, c: Claim) {
    && c.OfCode?
    && StepFor(c.at) - 1 <= c.step <= StepFor(c.at) + 1
    && Normalised(c.text) == code(secret, c.step)
  }

  ghost predicate Inv(code: CodeOf, s: State, secret: string, spent: int, list: seq<string>) {
    && s.factor.secret == secret
    && (forall id <- s.pending ::
          match s.pending[id]
          case OfCode(_, _, _) => Genuine(code, secret, s.pending[id])
          case OfRecovery(digest, seen) => digest in seen)
    && (forall i :: 0 <= i < |s.codes| ==> Genuine(code, secret, s.codes[i]) && s.codes[i].step > spent)
    && (forall i, j :: 0 <= i < j < |s.codes| ==> s.codes[i].step < s.codes[j].step)
    && s.factor.lastStep == Some(if s.codes == [] then spent else s.codes[|s.codes| - 1].step)
    && multiset(s.recoveries) + multiset(s.factor.recovery) == multiset(list)
  }

  lemma ReadKeepsInv(code: CodeOf, s: State, e: Step, secret: string, spent: int, list: seq<string>)
    requires Inv(code, s, secret, spent, list) && Enabled(code, s, e) && !e.TryClaim?
    ensures Inv(code, Apply(code, s, e), secret, spent, list)
  {
    if e.ReadCode? {
      MatchIsEarliest(code, secret, e.text, s.factor.lastStep, s.now);
    }
  }

  lemma CodeKeepsInv(code: CodeOf, s: State, c: Claim, secret: string, spent: int, list: seq<string>)
    requires Inv(code, s, secret, spent, list) && Genuine(code, secret, c) && IsNew(s.factor.lastStep, c.step)
    ensures Inv(code, Won(s, c), secret, spent, list)
  {
    assert forall i :: 0 <= i < |s.codes| ==> s.codes[i].OfCode?;
    hide Genuine;
    var codes := s.codes + [c];
    forall i | 0 <= i < |s.codes| ensures s.codes[i].step < c.step {
      assert s.codes[i].step <= s.codes[|s.codes| - 1].step;
    }
    assert forall i :: 0 <= i < |codes| ==> codes[i] == c || (i < |s.codes| && codes[i] == s.codes[i]);
  }

  lemma RecoveryKeepsInv(code: CodeOf, s: State, c: Claim, secret: string, spent: int, list: seq<string>)
    requires Inv(code, s, secret, spent, list) && c.OfRecovery? && c.digest in c.seen && Wins(s, c)
    ensures Inv(code, Won(s, c), secret, spent, list)
  {
    hide Genuine;
    WithoutTakesOne(c.seen, c.digest);
  }

  lemma ClaimKeepsInv(code: CodeOf, s: State, id: int, secret: string, spent: int, list: seq<string>)
    requires Inv(code, s, secret, spent, list) && id in s.pending
    ensures Inv(code, Apply(code, s, TryClaim(id)), secret, spent, list)
  {
    var c, s' := s.pending[id], s.(pending := s.pending - {id});
    assert Inv(code, s', secret, spent, list) && Wins(s', c) == Wins(s, c);
    if c.OfCode? {
      assert Genuine(code, secret, c);
      if Wins(s, c) { CodeKeepsInv(code, s', c, secret, spent, list); }
    } else {
      assert c.digest in c.seen;
      if Wins(s, c) { RecoveryKeepsInv(code, s', c, secret, spent, list); }
    }
  }

  lemma {:induction false} InvOverRuns(code: CodeOf, s: State, steps: seq<Step>, secret: string,
                                       spent: int, list: seq<string>)
    requires Inv(code, s, secret, spent, list) && Legal(code, s, steps)
    ensures Inv(code, After(code, s, steps), secret, spent, list)
    decreases |steps|
  {
    if steps != [] {
      if steps[0].TryClaim? {
        ClaimKeepsInv(code, s, steps[0].id, secret, spent, list);
      } else {
        ReadKeepsInv(code, s, steps[0], secret, spent, list);
      }
      InvOverRuns(code, Apply(code, s, steps[0]), steps[1..], secret, spent, list);
    }
  }

  /**
   Section 5.2 of RFC 6238: a step lets someone in at most once. Accepted steps
   strictly increase above the one confirm spent, each within a step of the
   instant its code was typed and carrying the code of that very step.
   */
  lemma AcceptedStepsIncrease(code: CodeOf, s: State, steps: seq<Step>, spent: int, list: seq<string>)
    requires JustConfirmed(s, spent, list) && Legal(code, s, steps)
    ensures var codes := After(code, s, steps).codes;
            && (forall i :: 0 <= i < |codes| ==> Genuine(code, s.factor.secret, codes[i]) && codes[i].step > spent)
            && (forall i, j :: 0 <= i < j < |codes| ==> codes[i].step < codes[j].step)
  {
    InvOverRuns(code, s, steps, s.factor.secret, spent, list);
  }

  /** One typed code lets two people in only if the secret has that code at two different steps. */
  lemma ReplayNeedsACollision(code: CodeOf, s: State, steps: seq<Step>, spent: int, list: seq<string>,
                              i: nat, j: nat)
    requires JustConfirmed(s, spent, list) && Legal(code, s, steps)
    requires i < j < |After(code, s, steps).codes|
    ensures var codes := After(code, s, steps).codes;
            codes[i].OfCode? && codes[j].OfCode?
            && (codes[i].text == codes[j].text ==>
                  codes[i].step != codes[j].step
                  && code(s.factor.secret, codes[i].step) == code(s.factor.secret, codes[j].step))
  {
    AcceptedStepsIncrease(code, s, steps, spent, list);
    var codes := After(code, s, steps).codes;
    assert Genuine(code, s.factor.secret, codes[i]) && Genuine(code, s.factor.secret, codes[j]);
  }

  /** Every recovery code is either still stored or was used, and none is used more often than it was given. */
  lemma RecoveryCodesAreConserved(code: CodeOf, s: State, steps: seq<Step>, spent: int, list: seq<string>)
    requires JustConfirmed(s, spent, list) && Legal(code, s, steps)
    ensures var s' := After(code, s, steps);
            multiset(s'.recoveries) + multiset(s'.factor.recovery) == multiset(list)
  {
    InvOverRuns(code, s, steps, s.factor.secret, spent, list);
  }

  /** Of two verifications that mean to claim the same step, whichever comes second is refused. */
  lemma SecondClaimLoses(code: CodeOf, s: State, steps: seq<Step>, spent: int, list: seq<string>, a: int, b: int)
    requires JustConfirmed(s, spent, list) && Legal(code, s, steps)
    requires var p := After(code, s, steps).pending;
             a in p && b in p && a != b && p[a].OfCode? && p[b].OfCode? && p[a].step == p[b].step
    ensures var s1 := Apply(code, After(code, s, steps), TryClaim(a));
            b in s1.pending && !Wins(s1, s1.pending[b])
            && Apply(code, s1, TryClaim(b)).codes == s1.codes
  {
    InvOverRuns(code, s, steps, s.factor.secret, spent, list);
  }

  // ---------- the functions themselves ----------

  datatype Row = Row(secret: string, confirmed: Option<int>, lastStep: Option<int>, recovery: seq<string>)

  /** The table auth_totp, one call at a time. */
  class TotpTable {
    const code: CodeOf
    var rows: map<int, Row>

    constructor (code: CodeOf)
      ensures this.code == code && rows == map[]
    {
      this.code, this.rows := code, map[];
    }

    /** A confirmed factor is not replaced. */
    method Begin(user: int, secret: string) returns (begun: bool)
      modifies this
      ensures begun <==> !(user in old(rows) && old(rows)[user].confirmed.Some?)
      ensures rows == if begun then old(rows)[user := Row(secret, None, None, [])] else old(rows)
    {
      if user in rows && rows[user].confirmed.Some? {
        return false;
      }
      rows := rows[user := Row(secret, None, None, [])];
      begun := true;
    }

    /** Confirming spends the step of the code that confirmed. */
    method Confirm(user: int, text: string, digests: seq<string>, now: int) returns (confirmed: bool)
      modifies this
      ensures confirmed <==>
              user in old(rows) && old(rows)[user].confirmed.None?
              && exists k :: OpensAt(code, old(rows)[user].secret, text, old(rows)[user].lastStep, now, k)
      ensures !confirmed ==> rows == old(rows)
      ensures confirmed ==>
        && user in rows && rows[user].confirmed == Some(now) && rows == old(rows)[user := rows[user]]
        && rows[user].secret == old(rows)[user].secret && rows[user].recovery == digests
        && rows[user].lastStep.Some?
        && OpensAt(code, old(rows)[user].secret, text, old(rows)[user].lastStep, now, rows[user].lastStep.value)
    {
      if user !in rows || rows[user].confirmed.Some? {
        return false;
      }
      var row := rows[user];
      var step := Matches(code, row.secret, text, row.lastStep, now);
      MatchIsEarliest(code, row.secret, text, row.lastStep, now);
      if step.None? {
        return false;
      }
      rows := rows[user := Row(row.secret, Some(now), step, digests)];
      confirmed := true;
    }

    /** Forgets the factor: from here on nothing of it is asked for or admits anybody. */
    method Disable(user: int)
      modifies this
      ensures rows == old(rows) - {user}
    {
      rows := rows - {user};
    }

    /** With a recovery code: let in exactly when it is stored, and it is stored once less. */
    method VerifyRecovery(user: int, digest: string) returns (admitted: bool)
      modifies this
      ensures admitted <==> user in old(rows) && old(rows)[user].confirmed.Some? && digest in old(rows)[user].recovery
      ensures !admitted ==> rows == old(rows)
      ensures admitted ==>
        && user in rows && rows == old(rows)[user := old(rows)[user].(recovery := rows[user].recovery)]
        && multiset(rows[user].recovery) + multiset{digest} == multiset(old(rows)[user].recovery)
    {
      if user !in rows || rows[user].confirmed.None? {
        return false;
      }
      var row := rows[user];
      if digest !in row.recovery {
        return false;
      }
      WithoutTakesOne(row.recovery, digest);
      rows := rows[user := row.(recovery := Without(row.recovery, digest))];
      admitted := true;
    }

    /**
     With a code: let in exactly when it opens a step around now above the last
     one spent; that step is spent, and the same code at once again is refused
     unless another step in the window has it too.
     */
    method VerifyCode(user: int, text: string, now: int) returns (admitted: bool)
      modifies this
      ensures admitted <==>
              user in old(rows) && old(rows)[user].confirmed.Some?
              && exists k :: OpensAt(code, old(rows)[user].secret, text, old(rows)[user].lastStep, now, k)
      ensures !admitted ==> rows == old(rows)
      ensures admitted ==>
        && user in rows && rows == old(rows)[user := old(rows)[user].(lastStep := rows[user].lastStep)]
        && rows[user].lastStep.Some?
        && OpensAt(code, old(rows)[user].secret, text, old(rows)[user].lastStep, now, rows[user].lastStep.value)
        && !OpensAt(code, rows[user].secret, text, rows[user].lastStep, now, rows[user].lastStep.value)
    {
      if user !in rows || rows[user].confirmed.None? {
        return false;
      }
      var row := rows[user];
      var step := Matches(code, row.secret, text, row.lastStep, now);
      MatchIsEarliest(code, row.secret, text, row.lastStep, now);
      if step.None? {
        return false;
      }
      admitted := IsNew(row.lastStep, step.value);
      if admitted {
        rows := rows[user := row.(lastStep := step)];
      }
    }
  }
}
