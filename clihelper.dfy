/** The command-line layer: the record of parsed flags declared by
    `SucktorialCliHelper.get_args_parser` and the five ordered checks of
    `SucktorialCliHelper.validate_args`. */
module CliHelper {
  import opened Wrappers
  import opened Truthiness

  /** The parsed namespace. `store_true` flags are booleans; `type=str` and
      `type=int` options are `None` when absent. */
  datatype Args = Args(
    // Credentials
    email: Option<string>,
    password: Option<string>,
    employeeId: Option<int>,
    // Actions
    login: bool,
    logout: bool,
    clockIn: bool,
    clockOut: bool,
    clockedIn: bool,
    shifts: bool,
    leaves: bool,
    employeeData: bool,
    graphqlQuery: Option<string>,
    insertShift: bool,
    startShift: Option<string>,
    endShift: Option<string>,
    dateShift: Option<string>,
    // Customization
    randomClock: Option<int>,
    userAgent: Option<string>,
    envfile: Option<string>,
    debug: bool)

  /** The value `--random-clock` takes without an operand (`nargs="?"`). */
  const RandomClockConst: int := 15

  /** The namespace when no flag at all is given. */
  function DefaultArgs(): Args {
    Args(None, None, None,
         false, false, false, false, false, false, false, false, None, false, None, None, None,
         None, None, None, false)
  }

  /** `args.random_clock`: absent gives `None`, a bare `--random-clock` the
      constant, `--random-clock X` the operand. */
  function RandomClockValue(given: bool, operand: Option<int>): Option<int> {
    if !given then None
    else match operand
      case Some(x) => Some(x)
      case None => Some(RandomClockConst)
  }

  const MsgCredentials := "Specify both email and password"
  const MsgRandomClock := "Specify --clock-in or --clock-out with --random-clock"
  const MsgInsertShift := "You must specify --start-shift, --end-shift and --date-shift"
  const MsgNoAction := "Specify at least one action"
  const MsgManyActions := "Specify only one action"

  /** The sum of `int(flag)` over the nine actions other than `--login`. */
  function ActionCount(a: Args): nat {
    Int(a.logout)
    + Int(a.clockIn)
    + Int(a.clockOut)
    + Int(a.clockedIn)
    + Int(a.shifts)
    + Int(a.leaves)
    + Int(a.employeeData)
    + Int(a.insertShift)
    + (if Truthy(a.graphqlQuery) then 1 else 0)
  }

  /** `validate_args`: each `parser.error` ends validation with its message. */
  function ValidateArgs(a: Args): Outcome<string> {
    if (Truthy(a.email) && !Truthy(a.password)) || (Truthy(a.password) && !Truthy(a.email)) then
      Fail(MsgCredentials)
    else if NonZero(a.randomClock) && !(a.clockIn || a.clockOut) then
      Fail(MsgRandomClock)
    else if a.insertShift && !Truthy(a.startShift) && !Truthy(a.endShift) && !Truthy(a.dateShift) then
      Fail(MsgInsertShift)
    else if !(a.login
              || a.logout
              || a.clockIn
              || a.clockOut
              || a.clockedIn
              || a.shifts
              || a.leaves
              || a.employeeData
              || Truthy(a.graphqlQuery)
              || a.insertShift) then
      Fail(MsgNoAction)
    else if ActionCount(a) > 1 then
      Fail(MsgManyActions)
    else
      Pass
  }

  // ---------------------------------------------------------------------
  // The rules stated on their own, as a reader of the help text means them

  /** The actions that exclude one another: every action but `--login`. */
  function ExclusiveActions(a: Args): seq<bool> {
    [a.logout, a.clockIn, a.clockOut, a.clockedIn, a.shifts, a.leaves,
     a.employeeData, Truthy(a.graphqlQuery), a.insertShift]
  }

  /** All ten actions, in the order the parser declares them. */
  function Actions(a: Args): seq<bool> {
    [a.login] + ExclusiveActions(a)
  }

  /** How many of the flags are set. */
  function CountSet(s: seq<bool>): (n: nat)
    ensures n <= |s|
    ensures n == 0 <==> forall i :: 0 <= i < |s| ==> !s[i]
  {
    if s == [] then 0 else Int(s[0]) + CountSet(s[1..])
  }

  predicate AtMostOneSet(s: seq<bool>) {
    forall i, j :: 0 <= i < j < |s| && s[i] ==> !s[j]
  }

  predicate CredentialsPaired(a: Args) {
    Truthy(a.email) <==> Truthy(a.password)
  }

  predicate RandomClockHasClock(a: Args) {
    NonZero(a.randomClock) ==> a.clockIn || a.clockOut
  }

  predicate InsertShiftHasDetail(a: Args) {
    a.insertShift ==> Truthy(a.startShift) || Truthy(a.endShift) || Truthy(a.dateShift)
  }

  predicate SomeAction(a: Args) {
    exists i :: 0 <= i < |Actions(a)| && Actions(a)[i]
  }

  predicate OneExclusiveAction(a: Args) {
    AtMostOneSet(ExclusiveActions(a))
  }

  /** A rule, whether the arguments satisfy it, and the message reported when not. */
  datatype Rule = Rule(holds: bool, message: string)

  /** The five rules in the order they are checked. */
  function Rules(a: Args): seq<Rule> {
    [Rule(CredentialsPaired(a), MsgCredentials),
     Rule(RandomClockHasClock(a), MsgRandomClock),
     Rule(InsertShiftHasDetail(a), MsgInsertShift),
     Rule(SomeAction(a), MsgNoAction),
     Rule(OneExclusiveAction(a), MsgManyActions)]
  }

  /** Checking rules in order and stopping at the first broken one. */
  function FirstFailure(rules: seq<Rule>): (r: Outcome<string>)
    ensures r.Pass? <==> forall i :: 0 <= i < |rules| ==> rules[i].holds
    ensures r.Fail? ==> exists k :: 0 <= k < |rules| && !rules[k].holds && r.error == rules[k].message
                                    && forall j :: 0 <= j < k ==> rules[j].holds
  {
    if rules == [] then Pass
    else if !rules[0].holds then Fail(rules[0].message)
    else
      var r := FirstFailure(rules[1..]);
      assert r.Fail? ==> exists k :: 1 <= k < |rules| && !rules[k].holds && r.error == rules[k].message
                                     && forall j :: 0 <= j < k ==> rules[j].holds by {
        if r.Fail? {
          var k :| 0 <= k < |rules[1..]| && !rules[1..][k].holds && r.error == rules[1..][k].message
                   && forall j :: 0 <= j < k ==> rules[1..][j].holds;
          assert forall j :: 0 <= j < k + 1 ==> rules[j].holds by {
            forall j | 0 <= j < k + 1 ensures rules[j].holds {
              if j > 0 { assert rules[j] == rules[1..][j - 1]; }
            }
          }
        }
      }
      r
  }

  /** The first broken rule is the one reported (a consequence of the
      contract of `FirstFailure`: the reported rule can be no other). */
  lemma FirstFailureReportsFirstBroken(rules: seq<Rule>, k: nat)
    requires k < |rules| && !rules[k].holds
    requires forall j :: 0 <= j < k ==> rules[j].holds
    ensures FirstFailure(rules) == Fail(rules[k].message)
  {
  }

  /** More than one exclusive action is set exactly when two of them are. */
  lemma {:induction false} CountSetAtMostOne(s: seq<bool>)
    ensures CountSet(s) <= 1 <==> AtMostOneSet(s)
  {
    if s != [] {
      var t := s[1..];
      CountSetAtMostOne(t);
      if s[0] {
        if CountSet(s) <= 1 {
          assert forall i :: 0 <= i < |t| ==> !t[i];
          forall i, j | 0 <= i < j < |s| && s[i] ensures !s[j] {
            assert s[j] == t[j - 1];
          }
        } else {
          var i :| 0 <= i < |t| && t[i];
          assert s[0] && s[i + 1];
        }
      } else {
        if AtMostOneSet(t) {
          forall i, j | 0 <= i < j < |s| && s[i] ensures !s[j] {
            assert i > 0;
            assert s[i] == t[i - 1] && s[j] == t[j - 1];
          }
        } else {
          var i, j :| 0 <= i < j < |t| && t[i] && t[j];
          assert s[i + 1] && s[j + 1];
        }
      }
    }
  }

  /** Counting nine flags one by one. */
  lemma CountSetOfNine(s: seq<bool>)
    requires |s| == 9
    ensures CountSet(s) == Int(s[0]) + Int(s[1]) + Int(s[2]) + Int(s[3]) + Int(s[4])
                           + Int(s[5]) + Int(s[6]) + Int(s[7]) + Int(s[8])
  {
    assert CountSet(s) == Int(s[0]) + CountSet(s[1..]);
    assert CountSet(s[1..]) == Int(s[1]) + CountSet(s[2..]) by { assert s[1..][1..] == s[2..]; }
    assert CountSet(s[2..]) == Int(s[2]) + CountSet(s[3..]) by { assert s[2..][1..] == s[3..]; }
    assert CountSet(s[3..]) == Int(s[3]) + CountSet(s[4..]) by { assert s[3..][1..] == s[4..]; }
    assert CountSet(s[4..]) == Int(s[4]) + CountSet(s[5..]) by { assert s[4..][1..] == s[5..]; }
    assert CountSet(s[5..]) == Int(s[5]) + CountSet(s[6..]) by { assert s[5..][1..] == s[6..]; }
    assert CountSet(s[6..]) == Int(s[6]) + CountSet(s[7..]) by { assert s[6..][1..] == s[7..]; }
    assert CountSet(s[7..]) == Int(s[7]) + CountSet(s[8..]) by { assert s[7..][1..] == s[8..]; }
    assert CountSet(s[8..]) == Int(s[8]) by { assert s[8..][1..] == []; }
  }

  /** The source's sum of `int(...)` terms counts the exclusive actions. */
  lemma ActionCountCountsExclusive(a: Args)
    ensures ActionCount(a) == CountSet(ExclusiveActions(a))
  {
    CountSetOfNine(ExclusiveActions(a));
  }

  /** The exclusive-action rule is the source's `> 1` test on the sum. */
  lemma OneExclusiveActionIffCount(a: Args)
    ensures OneExclusiveAction(a) <==> ActionCount(a) <= 1
  {
    ActionCountCountsExclusive(a);
    CountSetAtMostOne(ExclusiveActions(a));
  }

  /** The some-action rule is the source's ten-way `or`. */
  lemma SomeActionIffAnyFlag(a: Args)
    ensures SomeAction(a) <==>
              a.login || a.logout || a.clockIn || a.clockOut || a.clockedIn || a.shifts
              || a.leaves || a.employeeData || Truthy(a.graphqlQuery) || a.insertShift
  {
    var acts := Actions(a);
    if a.login { assert acts[0]; }
    if a.logout { assert acts[1]; }
    if a.clockIn { assert acts[2]; }
    if a.clockOut { assert acts[3]; }
    if a.clockedIn { assert acts[4]; }
    if a.shifts { assert acts[5]; }
    if a.leaves { assert acts[6]; }
    if a.employeeData { assert acts[7]; }
    if Truthy(a.graphqlQuery) { assert acts[8]; }
    if a.insertShift { assert acts[9]; }
  }

  /** `validate_args` is exactly "report the first broken rule". */
  lemma ValidateArgsFollowsRules(a: Args)
    ensures ValidateArgs(a) == FirstFailure(Rules(a))
  {
    var rules := Rules(a);
    OneExclusiveActionIffCount(a);
    SomeActionIffAnyFlag(a);
    if !rules[0].holds {
      FirstFailureReportsFirstBroken(rules, 0);
    } else if !rules[1].holds {
      FirstFailureReportsFirstBroken(rules, 1);
    } else if !rules[2].holds {
      FirstFailureReportsFirstBroken(rules, 2);
    } else if !rules[3].holds {
      FirstFailureReportsFirstBroken(rules, 3);
    } else if !rules[4].holds {
      FirstFailureReportsFirstBroken(rules, 4);
    }
  }

  /** Validation succeeds iff all five rules hold. */
  lemma ValidateArgsAcceptsIffRulesHold(a: Args)
    ensures ValidateArgs(a) == Pass <==>
              CredentialsPaired(a) && RandomClockHasClock(a) && InsertShiftHasDetail(a)
              && SomeAction(a) && OneExclusiveAction(a)
  {
    ValidateArgsFollowsRules(a);
    var rules := Rules(a);
    if CredentialsPaired(a) && RandomClockHasClock(a) && InsertShiftHasDetail(a)
       && SomeAction(a) && OneExclusiveAction(a) {
      forall i | 0 <= i < |rules| ensures rules[i].holds {
        if i == 0 {} else if i == 1 {} else if i == 2 {} else if i == 3 {} else {}
      }
    } else {
      assert !rules[0].holds || !rules[1].holds || !rules[2].holds || !rules[3].holds || !rules[4].holds;
    }
  }

  /** When validation fails, its message is that of a broken rule all of whose
      predecessors hold; and the first broken rule is always the one reported. */
  lemma ValidateArgsReportsFirstBrokenRule(a: Args, k: nat)
    requires k < 5 && !Rules(a)[k].holds
    requires forall j :: 0 <= j < k ==> Rules(a)[j].holds
    ensures ValidateArgs(a) == Fail(Rules(a)[k].message)
  {
    ValidateArgsFollowsRules(a);
    FirstFailureReportsFirstBroken(Rules(a), k);
  }

  /** No flag at all: the first rule to break is the missing action. */
  lemma NoFlagsMeansNoAction()
    ensures ValidateArgs(DefaultArgs()) == Fail(MsgNoAction)
  {
  }

  /** A bare `--random-clock` (value 15) is rejected without a clock action,
      whereas `--random-clock 0` is treated as if the flag were absent. */
  lemma RandomClockConstIsTruthy(a: Args)
    requires CredentialsPaired(a) && !a.clockIn && !a.clockOut
    ensures ValidateArgs(a.(randomClock := RandomClockValue(true, None))) == Fail(MsgRandomClock)
    ensures RandomClockHasClock(a.(randomClock := RandomClockValue(true, Some(0))))
  {
  }

  /** `--login` is not counted against the other actions: once the first
      three rules hold, login plus exactly one other action is accepted. */
  lemma LoginCombinesWithOneAction(a: Args)
    requires CredentialsPaired(a) && RandomClockHasClock(a) && InsertShiftHasDetail(a)
    requires a.login && CountSet(ExclusiveActions(a)) == 1
    ensures ValidateArgs(a) == Pass
  {
    CountSetAtMostOne(ExclusiveActions(a));
    assert Actions(a)[0];
    ValidateArgsAcceptsIffRulesHold(a);
  }

  /** A single shift detail satisfies the `--insert-shift` rule, although the
      message asks for all three. */
  lemma OneShiftDetailSuffices(a: Args)
    requires a.insertShift && Truthy(a.dateShift)
    requires a.startShift == None && a.endShift == None
    ensures InsertShiftHasDetail(a)
  {
  }

  /** An empty `--graphql-query ""` is no action. */
  lemma EmptyGraphqlQueryIsNoAction(a: Args)
    requires a.graphqlQuery == Some("")
    requires forall i :: 0 <= i < |Actions(a)| && i != 8 ==> !Actions(a)[i]
    ensures !SomeAction(a)
  {
  }
}
