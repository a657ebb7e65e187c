# sucktorial, modelled in Dafny

sucktorial is a personal command-line client for the Factorial HR web
application: it logs in by scraping the form's authenticity token, keeps the
session cookie in a file, clocks in and out, and lists or deletes shifts.
This project models its two pieces of decision logic:

- the command-line validation `SucktorialCliHelper.validate_args`
  (`clihelper.dfy`, module `CliHelper`): the parsed flags are a value of the
  datatype `Args`; `parser.error(msg)` is the result `Fail(msg)`; Python
  truthiness is written out (`None` and `""` are falsy strings, `None` and `0`
  a falsy `--random-clock`). `ValidateArgs` is a function of that value, so it
  cannot change any field of it.
- the `Factorial` client (`factorial.dfy`, module `FactorialClient`): the
  credential checks of `__init__` (the pure `ResolveConfig`, and
  `Factorial.Create`, which builds the object; a raised `ValueError` is a
  `Failure(msg)` result), the status-code decisions of every call, the inverted
  `is_clocked_in`, and the choice and URL of `delete_last_shift`. HTTP is
  abstracted: every request the client issues is appended to the field `sent`
  (verb, URL as looked up in the configuration, form data) and the status and
  decoded body of its response are parameters of the method. The cookie file
  is the flag `sessionStored`; a `requests.Session` is an object of class
  `Session` whose `restored` says whether its cookies were loaded from that file.

`decimal.dfy` (module `Decimal`) renders an `int` as Python's `str` does, for
the `f"/{id}"` of the delete URL, with a parser that reads it back; the round
trip shows that the URL names exactly one shift id. `wrappers.dfy` holds
`Option`/`Result`/`Outcome` and the truthiness predicates.

The source is followed as written where it reads oddly, with one exception:
`src/factorial.py` imports the module `datetime`, so the `datetime.now()` that
builds the clock-in/out form raises `AttributeError` before any request is
sent; the model leaves that timestamp out and states the status rule the two
methods apply once the form is built (see "## Left out"). Otherwise: `clock_out` raises
with the message "Can't clock in"; `is_clocked_in` is true when there is no
open shift; `--insert-shift` is accepted with any one of the three shift
details although its message asks for all three; `--login` is left out of the
"only one action" count.

## Model

| member | source | states |
|---|---|---|
| CliHelper.ValidateArgs | src/clihelper.py:125-160 | no contract of its own: the five checks in source order with their messages and Python truthiness; its meaning is stated by ValidateArgsFollowsRules, ValidateArgsAcceptsIffRulesHold and ValidateArgsReportsFirstBrokenRule |
| CliHelper.ActionCount | src/clihelper.py:149-158 | no contract of its own: the sum of `int(...)` terms; ActionCountCountsExclusive and OneExclusiveActionIffCount state what it counts |
| CliHelper.DefaultArgs | src/clihelper.py:12-120 | no contract of its own: every `store_true` flag false and every option `None`, the parser's defaults; NoFlagsMeansNoAction states how validation treats it |
| CliHelper.RandomClockValue | src/clihelper.py:99-105 | no contract of its own: absent gives `None`, a bare flag the constant 15, an operand itself; RandomClockConstIsTruthy states its effect on validation |
| CliHelper.ValidateArgsFollowsRules | src/clihelper.py:125-160 | validation is exactly "check the five rules in source order and report the message of the first broken one" |
| CliHelper.ValidateArgsAcceptsIffRulesHold | src/clihelper.py:125-160 | validation passes iff credentials are paired, `--random-clock` has a clock action, `--insert-shift` has a detail, some action is set and at most one non-login action is set |
| CliHelper.ValidateArgsReportsFirstBrokenRule | src/clihelper.py:125-160 | whenever rule k is broken and all earlier rules hold, the error is rule k's message |
| CliHelper.FirstFailure | src/clihelper.py:125-160 | ordered checking passes iff every rule holds, and a failure carries the message of a broken rule whose predecessors all hold |
| CliHelper.FirstFailureReportsFirstBroken | src/clihelper.py:125-160 | the first broken rule is the one reported, whatever follows it |
| CliHelper.SomeActionIffAnyFlag | src/clihelper.py:135-147 | "some action is set" is the source's ten-way `or`, with `--graphql-query` counting only when non-empty |
| CliHelper.CountSet | src/clihelper.py:149-159 | the number of set flags is at most their number, and zero iff none is set |
| CliHelper.CountSetAtMostOne | src/clihelper.py:149-160 | a count of at most one holds iff no two distinct flags are both set |
| CliHelper.ActionCountCountsExclusive | src/clihelper.py:149-158 | the source's sum of `int(...)` terms is the number of set non-login actions |
| CliHelper.OneExclusiveActionIffCount | src/clihelper.py:149-160 | the `> 1` test rejects exactly the argument sets where two non-login actions are both set |
| CliHelper.LoginCombinesWithOneAction | src/clihelper.py:125-160 | once the first three rules hold, `--login` together with exactly one other action is accepted by validation |
| CliHelper.OneShiftDetailSuffices | src/clihelper.py:132-133 | `--insert-shift` with only `--date-shift` passes the shift rule |
| CliHelper.EmptyGraphqlQueryIsNoAction | src/clihelper.py:135-147 | an empty GraphQL query with no other action is no action |
| CliHelper.RandomClockConstIsTruthy | src/clihelper.py:129-130 | a bare `--random-clock` (value 15) without clock actions fails with its message; `--random-clock 0` never breaks the rule |
| CliHelper.NoFlagsMeansNoAction | src/clihelper.py:135-147 | with every flag at its declared default, validation fails with "Specify at least one action" |
| Decimal.NatToString | src/factorial.py:133 | the decimal text of a natural is non-empty, all digits, without leading zeros |
| Decimal.DigitsValueOfNatToString | src/factorial.py:133 | reading the digits of a natural back gives the natural |
| Decimal.IntToString | src/factorial.py:133 | `str(i)`: digits without leading zeros for a non-negative number, a minus sign and such digits for a negative one |
| Decimal.ParseIntOfIntToString | src/factorial.py:133 | parsing `str(i)` gives `i` back, negatives included |
| Decimal.IntToStringInjective | src/factorial.py:133 | distinct ids render to distinct texts |
| FactorialClient.ResolveConfig | src/factorial.py:14-28 | exactly one CLI credential is rejected before the env config is consulted; both override EMAIL and PASSWORD and leave every other key unchanged; neither requires a truthy EMAIL and PASSWORD in the env config, which is then kept as is; every resolved config holds both credentials |
| FactorialClient.Factorial.Create | src/factorial.py:14-42 | construction succeeds iff the credentials resolve and COOKIE_FILE is configured; a credential error is reported first, a missing COOKIE_FILE raises the `TypeError` of `os.path.exists(None)`; on success a fresh valid client with the resolved config, no requests sent and cookies restored iff the cookie file exists |
| FactorialClient.Factorial.constructor | src/factorial.py:39-42 | for a config that passed the checks: a valid client with a new session, restored from the cookie file iff it exists |
| FactorialClient.Session.constructor | src/factorial.py:40 | a session records whether its cookies were restored |
| FactorialClient.Factorial.Login | src/factorial.py:46-66 | succeeds (returning true) iff the login page answers 200, the token is non-empty and the form post answers 200; the post carries the token and the configured email and password (always non-empty, since every client is valid) with `remember_me` 0 and `commit` "Accedi", and is not sent when an earlier step failed; the session is stored exactly on success |
| FactorialClient.Factorial.Logout | src/factorial.py:68-74 | returns true iff the status is 204; in every case the session is a fresh unrestored one and the stored session is gone |
| FactorialClient.Factorial.ClockIn | src/factorial.py:76-89 | once the form is built (the timestamp is left out): accepts exactly the statuses 200 and 201, returning true, and raises "Can't clock in" otherwise |
| FactorialClient.Factorial.ClockOut | src/factorial.py:91-104 | once the form is built (the timestamp is left out): accepts exactly 200 and 201 and otherwise raises, with the clock-in message as written |
| FactorialClient.Factorial.OpenShift | src/factorial.py:109-116 | returns the body on 200 only, raises otherwise |
| FactorialClient.Factorial.IsClockedIn | src/factorial.py:106-107 | on 200 returns true iff the open shift is empty; otherwise raises the open-shift error |
| FactorialClient.Factorial.Shifts | src/factorial.py:118-125 | returns the list on 200 only, raises otherwise |
| FactorialClient.Accepts | src/factorial.py:59 | no contract of its own: the status test of each call (200 for the login page and form, open shift and shifts; 200 or 201 for clock in/out; 204 for logout and shift deletion); the method contracts below state each one |
| FactorialClient.ErrorMessage | src/factorial.py:62 | no contract of its own: the message each call raises on a rejected status (the clock-out message is the clock-in one); the method contracts below state each one |
| FactorialClient.DeleteTarget | src/factorial.py:128-133 | no target iff the list is empty; otherwise the URL is SHIFTS_URL + "/" + `str(id)` of the last shift; with SHIFTS_URL unset it is the `TypeError` of `None + str` (in the source the listing request to a `None` URL fails first; the model reaches this case only because transport errors are abstracted) |
| FactorialClient.ShiftUrlReadsBackId | src/factorial.py:133 | the id is read back from the text after SHIFTS_URL + "/" of a delete URL |
| FactorialClient.DeleteTargetDistinguishesShifts | src/factorial.py:132-133 | lists whose last shifts differ are deleted through different URLs |
| FactorialClient.Factorial.DeleteLastShift | src/factorial.py:127-139 | returns false and sends no delete iff the list is empty; otherwise sends one delete, to SHIFTS_URL + "/" + `str(id)` of the last shift, and returns true on 204 and raises otherwise |

## Left out

- FactorialClient.Factorial.ClockIn: in the source `datetime.now()` at src/factorial.py:80 is looked up on the module `datetime` (line 1 imports the module), so `clock_in` raises `AttributeError` before posting and never returns true; the model leaves the timestamp out and states the status rule of lines 83-89 that would apply once the form is built.
- FactorialClient.Factorial.ClockOut: likewise `datetime.now()` at src/factorial.py:95 raises `AttributeError` before the post, so `clock_out` never returns true as written; the model states the status rule of lines 98-104.
- HTTP transport (`requests.Session.get/post/delete`): each call is a logged `Request` whose status and decoded body are parameters; transport errors, including the `MissingSchema` of a request whose configured URL is missing, are not modelled.
- HTML scraping of the authenticity token (`BeautifulSoup`): the token is a parameter that may be `None` or empty; the `AttributeError` when the page has no token field is not modelled.
- Cookie persistence with `pickle`, `os.path.exists` and `os.remove`: reduced to the flag `sessionStored` and `Session.restored`; the cookies themselves are not modelled.
- `dotenv_values()`: the `.env` values are the parameter `env`.
- Logging setup, the `--debug` test on `sys.argv` and every log line.
- The `now` timestamp of the clock-in/out form: it reads the wall clock; the form keeps only its `source`.
- JSON decoding: a shift is reduced to an integer `id` (a missing `id` key or a non-integer id is not modelled), and the open shift to a string-to-string dictionary, of which only the size matters.
- `datetime_parser`: it reads the wall clock and a date format defined outside these files.
- `argparse` itself and `parse_and_validate`: only the declared flags, their defaults (`DefaultArgs`) and the constant 15 of a bare `--random-clock` (`RandomClockValue`) are modelled.
- The `__main__` demonstration with its `sleep` calls.
