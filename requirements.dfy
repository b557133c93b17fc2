/**
 * Spending requirements. An output's requirements are strings; each is read as
 * an absolute timelock `absTimelock(<n>)`, a relative timelock `timelock(<n>)`,
 * or otherwise the name of a fact that must be truthy in the evaluating state
 * (tx-tools.js:222-240). Requirements are kept as strings, as the source keeps
 * them, and classified on each evaluation.
 */
module Requirements {
  import opened Outcomes
  import opened Facts

  /**
   * The state object a requirement is evaluated against: the ledger clock under
   * the key `time`, and the names whose entry is `true`.
   */
  datatype View = View(time: int, facts: set<string>)

  /** What `parseInt` yields for a timelock argument: a number, or NaN. */
  datatype LockTime = At(value: nat) | NotANumber

  datatype Requirement = AbsLock(lock: LockTime) | RelLock(lock: LockTime) | Has(name: string)

  const AbsPrefix: string := "absTimelock("
  const RelPrefix: string := "timelock("

  /** JavaScript's `s.indexOf(prefix) === 0`. */
  predicate StartsWith(s: string, prefix: string) {
    |prefix| <= |s| && s[..|prefix|] == prefix
  }

  /** JavaScript's `s.slice(start, -1)`: from `start` up to, not including, the last character. */
  function SliceToLast(s: string, start: nat): (r: string)
    ensures start < |s| - 1 ==> r == s[start..|s| - 1]
    ensures start >= |s| - 1 ==> r == ""
  {
    if start < |s| - 1 then s[start..|s| - 1] else ""
  }

  predicate IsDigit(c: char) {
    '0' <= c <= '9'
  }

  predicate AllDigits(s: string) {
    forall i :: 0 <= i < |s| ==> IsDigit(s[i])
  }

  /** The number of decimal digits `s` starts with. */
  function DigitRun(s: string): (n: nat)
    ensures n <= |s| && AllDigits(s[..n])
    ensures n < |s| ==> !IsDigit(s[n])
  {
    if s == [] || !IsDigit(s[0]) then 0
    else
      var n := 1 + DigitRun(s[1..]);
      assert s[..n] == [s[0]] + s[1..][..n - 1];
      n
  }

  /** The value of a string of decimal digits, most significant first. */
  function DecimalValue(s: string): (r: nat)
    requires AllDigits(s)
  {
    if s == [] then 0
    else DecimalValue(s[..|s| - 1]) * 10 + ((s[|s| - 1] as int) - ('0' as int))
  }

  /**
   * `parseInt` of a timelock argument: the value of its leading decimal digits,
   * NaN when it does not start with a digit.
   */
  function ParseInt(s: string): (r: LockTime) {
    var n := DigitRun(s);
    if n == 0 then NotANumber else At(DecimalValue(s[..n]))
  }

  /** How `getRemainingRequirements` reads one requirement string (tx-tools.js:225-235). */
  function Classify(s: string): (r: Requirement)
    ensures r.AbsLock? <==> StartsWith(s, AbsPrefix)
    ensures r.RelLock? <==> !StartsWith(s, AbsPrefix) && StartsWith(s, RelPrefix)
    ensures r.Has? ==> r.name == s
  {
    if StartsWith(s, AbsPrefix) then AbsLock(ParseInt(SliceToLast(s, |AbsPrefix|)))
    else if StartsWith(s, RelPrefix) then RelLock(ParseInt(SliceToLast(s, |RelPrefix|)))
    else Has(s)
  }

  /** Decimal notation of a natural number, as drivers write timelock arguments. */
  function Decimal(n: nat): (r: string)
    ensures |r| > 0 && AllDigits(r)
  {
    var d := [('0' as int + n % 10) as char];
    if n < 10 then d else Decimal(n / 10) + d
  }

  /** The requirement literal a driver writes for a requirement. */
  function Render(r: Requirement): (t: string) {
    match r
    case AbsLock(At(n)) => AbsPrefix + Decimal(n) + ")"
    case AbsLock(NotANumber) => AbsPrefix + ")"
    case RelLock(At(n)) => RelPrefix + Decimal(n) + ")"
    case RelLock(NotANumber) => RelPrefix + ")"
    case Has(name) => name
  }

  lemma {:induction false} DecimalValueOfDecimal(n: nat)
    ensures DecimalValue(Decimal(n)) == n
  {
    var s := Decimal(n);
    if n >= 10 {
      DecimalValueOfDecimal(n / 10);
      assert s[..|s| - 1] == Decimal(n / 10);
    }
  }

  lemma {:induction false} DigitRunOfDigits(s: string)
    requires AllDigits(s)
    ensures DigitRun(s) == |s|
  {
    if s != [] {
      DigitRunOfDigits(s[1..]);
    }
  }

  /** `parseInt` reads back every number written in decimal. */
  lemma ParseIntOfDecimal(n: nat)
    ensures ParseInt(Decimal(n)) == At(n)
  {
    DigitRunOfDigits(Decimal(n));
    assert Decimal(n)[..|Decimal(n)|] == Decimal(n);
    DecimalValueOfDecimal(n);
  }

  lemma SliceOfLiteral(prefix: string, arg: string)
    ensures SliceToLast(prefix + arg + ")", |prefix|) == arg
  {
    var s := prefix + arg + ")";
    if |arg| > 0 {
      assert s[|prefix|..|s| - 1] == arg;
    }
  }

  /**
   * Reading a requirement literal gives back the requirement it was written
   * for, provided a fact name does not itself look like a timelock.
   */
  lemma ClassifyRender(r: Requirement)
    requires r.Has? ==> !StartsWith(r.name, AbsPrefix) && !StartsWith(r.name, RelPrefix)
    ensures Classify(Render(r)) == r
  {
    match r
    case AbsLock(lock) =>
      var arg := if lock.At? then Decimal(lock.value) else "";
      assert Render(r) == AbsPrefix + arg + ")";
      assert (AbsPrefix + arg + ")")[..|AbsPrefix|] == AbsPrefix;
      SliceOfLiteral(AbsPrefix, arg);
      if lock.At? { ParseIntOfDecimal(lock.value); }
    case RelLock(lock) =>
      var arg := if lock.At? then Decimal(lock.value) else "";
      var s := RelPrefix + arg + ")";
      assert Render(r) == s;
      assert s[..|RelPrefix|] == RelPrefix;
      assert !StartsWith(s, AbsPrefix) by { assert s[0] == 't'; }
      SliceOfLiteral(RelPrefix, arg);
      if lock.At? { ParseIntOfDecimal(lock.value); }
    case Has(name) =>
  }

  /**
   * Whether one requirement is left unfulfilled (tx-tools.js:225-237):
   * `absTimelock(t)` while `time < t`; `timelock(d)` while the output has no
   * confirmation time or has confirmation time 0 (`!this.confirmationTime`), or
   * while `time < confirmationTime + d`; any other string while it is not a
   * truthy entry of the state. A NaN argument makes every comparison false.
   */
  predicate Unmet(req: string, confirmationTime: Option<int>, state: View) {
    match Classify(req)
    case AbsLock(lock) => lock.At? && state.time < lock.value
    case RelLock(lock) =>
      || confirmationTime.None?
      || confirmationTime.value == 0
      || (lock.At? && state.time < confirmationTime.value + lock.value)
    case Has(name) => name !in state.facts
  }

  /** The requirements that are unmet, in their original order. */
  function Remaining(reqs: seq<string>, confirmationTime: Option<int>, state: View): (r: seq<string>) {
    if reqs == [] then []
    else
      var last := reqs[|reqs| - 1];
      Remaining(reqs[..|reqs| - 1], confirmationTime, state) + (if Unmet(last, confirmationTime, state) then [last] else [])
  }

  /** A requirement is reported exactly when it is one of the requirements and it is unmet. */
  lemma {:induction false} RemainingMembers(reqs: seq<string>, confirmationTime: Option<int>, state: View, x: string)
    ensures x in Remaining(reqs, confirmationTime, state) <==> x in reqs && Unmet(x, confirmationTime, state)
  {
    if reqs != [] {
      var init := reqs[..|reqs| - 1];
      RemainingMembers(init, confirmationTime, state, x);
      assert reqs == init + [reqs[|reqs| - 1]];
    }
  }

  /** Filtering keeps the original order: it distributes over concatenation. */
  lemma {:induction false} RemainingAppend(a: seq<string>, b: seq<string>, confirmationTime: Option<int>, state: View)
    ensures Remaining(a + b, confirmationTime, state)
         == Remaining(a, confirmationTime, state) + Remaining(b, confirmationTime, state)
  {
    if b == [] {
      assert a + b == a;
    } else {
      var init := b[..|b| - 1];
      RemainingAppend(a, init, confirmationTime, state);
      assert (a + b)[..|a + b| - 1] == a + init;
    }
  }

  /** Nothing remains exactly when every requirement holds. */
  lemma RemainingEmpty(reqs: seq<string>, confirmationTime: Option<int>, state: View)
    ensures Remaining(reqs, confirmationTime, state) == []
        <==> forall i :: 0 <= i < |reqs| ==> !Unmet(reqs[i], confirmationTime, state)
  {
    var r := Remaining(reqs, confirmationTime, state);
    if r != [] {
      RemainingMembers(reqs, confirmationTime, state, r[0]);
    }
    forall i | 0 <= i < |reqs| && Unmet(reqs[i], confirmationTime, state)
      ensures r != []
    {
      RemainingMembers(reqs, confirmationTime, state, reqs[i]);
    }
  }

  /** A later clock and more facts never make a requirement unmet. */
  lemma UnmetAntitone(req: string, confirmationTime: Option<int>, s1: View, s2: View)
    requires s1.time <= s2.time && s1.facts <= s2.facts
    ensures Unmet(req, confirmationTime, s2) ==> Unmet(req, confirmationTime, s1)
  {
  }

  /** Hence what remains against more facts at a later time also remained before. */
  lemma RemainingAntitone(reqs: seq<string>, confirmationTime: Option<int>, s1: View, s2: View)
    requires s1.time <= s2.time && s1.facts <= s2.facts
    ensures forall x :: x in Remaining(reqs, confirmationTime, s2) ==> x in Remaining(reqs, confirmationTime, s1)
  {
    forall x | x in Remaining(reqs, confirmationTime, s2)
      ensures x in Remaining(reqs, confirmationTime, s1)
    {
      RemainingMembers(reqs, confirmationTime, s2, x);
      UnmetAntitone(x, confirmationTime, s1, s2);
      RemainingMembers(reqs, confirmationTime, s1, x);
    }
  }

  /**
   * A relative timelock is unmet on an output without a confirmation time and
   * on one confirmed at time 0, whatever the delay and the clock.
   */
  lemma RelLockNeedsNonZeroConfirmation(d: nat, confirmationTime: Option<int>, state: View)
    requires confirmationTime == None || confirmationTime == Some(0)
    ensures Unmet(Render(RelLock(At(d))), confirmationTime, state)
  {
    ClassifyRender(RelLock(At(d)));
  }

  /** With a non-zero confirmation time, `timelock(d)` is met exactly from `confirmationTime + d` on. */
  lemma RelLockMetFrom(d: nat, c: int, state: View)
    requires c != 0
    ensures !Unmet(Render(RelLock(At(d))), Some(c), state) <==> state.time >= c + d
  {
    ClassifyRender(RelLock(At(d)));
  }

  /** `absTimelock(t)` is met exactly from time `t` on, whatever the confirmation time. */
  lemma AbsLockMetFrom(t: nat, confirmationTime: Option<int>, state: View)
    ensures !Unmet(Render(AbsLock(At(t))), confirmationTime, state) <==> state.time >= t
  {
    ClassifyRender(AbsLock(At(t)));
  }
}
