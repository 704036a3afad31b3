# naxsi configuration and access handler — a Dafny model

This project models the core of `naxsi_skeleton.c`, the nginx glue of the naxsi web
application firewall:

- **Rule classification.** `ngx_http_dummy_read_conf` handles the location-level
  directives. It registers the location with the main configuration once, stores
  `DeniedUrl`, sets the enable / disable / learning flags, and files each parsed
  `BasicRule`:
  - a rule with a whitelist id goes into the whitelist rules, and nowhere else;
  - otherwise, copies of the rule are appended to the header, body, generic (URL)
    and GET collections its target flags and custom locations name.

  `ngx_http_dummy_read_main_conf` does the same routing for `MainRule` at http
  level, without a whitelist branch. `ngx_http_dummy_merge_loc_conf` fills a
  child location's empty collections from its parent.
- **The CheckRule scanner.** It reads the `$TAG <cmp> N` text into a tag, a
  comparator and an `atoi` threshold. It also runs the `strstr`-based action
  test, which sets `block` for every action word and rejects only a word
  containing all three of BLOCK, ALLOW and LOG.
- **The access handler state machine.** `ngx_http_dummy_access_handler` works
  over the request context flags `ready`, `wait_for_body`, `over` and `block`,
  and the location counters `request_processed` and `request_blocked`.

The source's form is kept:
- The configurations are classes, whose methods assign the flags and append to
  the rule sequences.
- The custom-location loop and the scanner's index loops are `while` loops.
- The request context is a class the handler allocates and updates.

Each method is proved equal to a specification function over a value snapshot
(`LocState`, `RuleSets`, `View`). The lemmas state the properties of those
functions.

Modules:

- `Wrappers` (`wrappers.dfy`): `Option`.
- `NaxsiRules` (`rules.dfy`): rules, custom locations, the four target
  collections and the classification used at both levels.
- `CheckRules` (`check_rule.dfy`):
  - C strings as `seq<char>`, read with a NUL sentinel past the end.
  - Models of `strchr`, `strstr` and `atoi`.
  - The CheckRule scanner.
- `NaxsiConfig` (`config.dfy`): the location and main configurations, the
  directive handlers and the merge.
- `NaxsiAccess` (`access_handler.dfy`): the request context, the access handler
  and the whole-life "evaluated at most once" result.

Two behaviours of the code are easy to miss, and the model keeps both as written:

- **Action test.** The action word is not compared for equality. The code runs
  three `strstr` tests (532-541) and rejects only an action that contains all
  of BLOCK, ALLOW and LOG. Every other action, BLOCK, ALLOW and LOG included,
  is accepted with `block` set.
- **Rejected CheckRule.** The zeroed entry is appended to the CheckRule list
  before any validation (480-482). A rejected CheckRule therefore stays in the
  list, partly filled (`NaxsiConfig.CheckRuleAlwaysAppended`).

A location `BasicRule` that fails to parse is an error and is not filed
(326-331), as at main level (568-572).

## Model

| member | source | states |
|---|---|---|
| NaxsiRules.Classify | modules/naxsi/naxsi_src/naxsi_skeleton.c:354-464 | The collections after one classification are exactly `Route(sets, r)`. Each collection gets `Copies(r, c)` copies appended at its tail: a global-flag push followed by one push per matching custom location. |
| NaxsiRules.PushCustomLocations | modules/naxsi/naxsi_src/naxsi_skeleton.c:421-464 | One pass over the custom locations. The header, body and GET collections each grow by exactly as many copies as there are locations marked `headers_var`, `body_var` and `args_var` respectively. The generic collection does not change. |
| NaxsiRules.RouteReachesExactlyTargets | modules/naxsi/naxsi_src/naxsi_skeleton.c:354-464 | A collection grows iff the rule targets it: a global flag, or a custom location of the matching kind when `custom_location` is set. A collection receives at most 1 + #custom locations copies; the generic collection receives at most one. Body and GET each push once even when both of their flags are set. |
| NaxsiRules.RouteAppendsCopies | modules/naxsi/naxsi_src/naxsi_skeleton.c:354-464 | Classification does not deduplicate. The old collection is a prefix of the new one, and every appended element is the rule itself. |
| NaxsiRules.CountMarkedPositive | modules/naxsi/naxsi_src/naxsi_skeleton.c:428-463 | The loop pushes at least one copy for a kind iff some custom location is marked with that kind. |
| CheckRules.Strchr | modules/naxsi/naxsi_src/naxsi_skeleton.c:488 | `strchr`: the result is the first index holding the character or the terminating NUL. Everything before it is neither. |
| CheckRules.SkipSpaces | modules/naxsi/naxsi_src/naxsi_skeleton.c:505-506 | The scan stops at the first non-space at or after `i`. |
| CheckRules.SkipToNumber | modules/naxsi/naxsi_src/naxsi_skeleton.c:521-523 | The scan stops at the first digit, `-` or NUL at or after `i`, passing over anything else. |
| CheckRules.DigitsEnd | modules/naxsi/naxsi_src/naxsi_skeleton.c:530 | The end of the digit run that `atoi` reads. |
| CheckRules.ParseCheckRule | modules/naxsi/naxsi_src/naxsi_skeleton.c:484-541 | The index-advancing scanner computes exactly `CheckRuleSpec`: the tag check, the comparator chain, the threshold scan and the action test, each with its error outcome. |
| CheckRules.CheckRuleTag | modules/naxsi/naxsi_src/naxsi_skeleton.c:484-498 | A first argument that does not start with `$`, or has no space before its end, yields the zeroed entry and an error. Otherwise the tag is exactly the non-empty text before the first space. |
| CheckRules.CheckRuleComparator | modules/naxsi/naxsi_src/naxsi_skeleton.c:505-519 | After the spaces, `>=` gives SUP_OR_EQUAL, `>` without `=` gives SUP, `<=` gives INF_OR_EQUAL and `<` gives INF. The two-character forms are tested first. Anything else is an error with only the tag filled in: comparator unset, threshold 0, `block` clear. |
| CheckRules.CheckRuleScore | modules/naxsi/naxsi_src/naxsi_skeleton.c:521-530 | The threshold is `atoi` from the first digit or `-` after the comparator. When none follows, the threshold is 0. |
| CheckRules.CheckRuleAction | modules/naxsi/naxsi_src/naxsi_skeleton.c:532-541 | A well-formed CheckRule is accepted iff its action does not contain all of BLOCK, ALLOW and LOG. `block` is set iff it is accepted. |
| CheckRules.ActionWordsAllBlock | modules/naxsi/naxsi_src/naxsi_skeleton.c:532-541 | With a well-formed first argument, each of the actions BLOCK, ALLOW, LOG and DROP is accepted with `block` set. |
| CheckRules.ContainsIff | modules/naxsi/naxsi_src/naxsi_skeleton.c:532-536 | The `strstr` model finds a word iff the word occurs, as a contiguous run, in the argument before its terminator. |
| CheckRules.AtoiIntText | modules/naxsi/naxsi_src/naxsi_skeleton.c:530 | `atoi` reads back the decimal text of any integer, negative ones included. |
| CheckRules.CheckRuleRoundTrip | modules/naxsi/naxsi_src/naxsi_skeleton.c:484-541 | Parsing the text `$tag <cmp> N` recovers the tag, the comparator and N. |
| CheckRules.ExampleArgsAbove8 | modules/naxsi/naxsi_src/naxsi_skeleton.c:484-541 | `"$ARGS > 8"` with BLOCK gives tag `$ARGS`, comparator SUP, threshold 8 and `block`. |
| CheckRules.ExampleNegativeThreshold | modules/naxsi/naxsi_src/naxsi_skeleton.c:521-530 | `"$X >= -3"` gives SUP_OR_EQUAL and threshold -3. |
| CheckRules.ExampleSqlLog | modules/naxsi/naxsi_src/naxsi_skeleton.c:532-541 | `"$SQL >= 4"` with LOG is accepted with `block` set. |
| NaxsiConfig.LocConf.ReadConf | modules/naxsi/naxsi_src/naxsi_skeleton.c:282-545 | A directive leaves the location's fields equal to `ReadConfSpec` of the old ones and keeps the location invariant. The location is appended to the main list iff it had not been pushed before. The counters do not change. |
| NaxsiConfig.LocConf.Dispatch | modules/naxsi/naxsi_src/naxsi_skeleton.c:286-545 | The registration step followed by the keyword chain: DeniedUrl, the three flags, BasicRule, CheckRule and the error fall-through. The result is exactly `ReadConfSpec`. |
| NaxsiConfig.LocConf.PushRule | modules/naxsi/naxsi_src/naxsi_skeleton.c:333-465 | A parsed BasicRule goes to the whitelist when its whitelist id is non-zero, and is classified otherwise. |
| NaxsiConfig.LocConf.PushCheckRule | modules/naxsi/naxsi_src/naxsi_skeleton.c:474-542 | The CheckRule list gains exactly one entry, the scanner's, accepted or not. |
| NaxsiConfig.LocConf.Merge | modules/naxsi/naxsi_src/naxsi_skeleton.c:197-214 | The child's fields become `MergeSpec(child, parent)`, and the location invariant is kept. |
| NaxsiConfig.MainConf.ReadMainConf | modules/naxsi/naxsi_src/naxsi_skeleton.c:566-686 | Main-level rule sets after a directive equal `ReadMainConfSpec` of the old ones. |
| NaxsiConfig.WhitelistRouting | modules/naxsi/naxsi_src/naxsi_skeleton.c:333-351 | A location rule with a non-zero whitelist id is appended exactly once to the whitelist. No target collection and no CheckRule changes, whatever its flags. |
| NaxsiConfig.TargetRouting | modules/naxsi/naxsi_src/naxsi_skeleton.c:352-465 | A location rule with whitelist id 0 leaves the whitelist alone. Each collection becomes the old one plus `Copies(r, c)` copies, and the collection grows iff the rule targets it. |
| NaxsiConfig.MainRoutesWhitelistedRules | modules/naxsi/naxsi_src/naxsi_skeleton.c:566-684 | At main level, a rule with a whitelist id still lands in every collection it targets. The same rule given as a location BasicRule leaves that collection unchanged. |
| NaxsiConfig.MainRejects | modules/naxsi/naxsi_src/naxsi_skeleton.c:566-686 | The main handler succeeds iff the directive is MainRule and its rule parsed. On failure the rule sets are unchanged. |
| NaxsiConfig.RejectedDirectives | modules/naxsi/naxsi_src/naxsi_skeleton.c:286-545 | These are errors: DeniedUrl with an empty argument, an unknown keyword, MainRule at location level, and a BasicRule that fails to parse. A rejected directive changes nothing but the registration flag, except that a rejected CheckRule leaves its entry. |
| NaxsiConfig.CheckRuleAlwaysAppended | modules/naxsi/naxsi_src/naxsi_skeleton.c:474-542 | A CheckRule directive appends exactly the scanner's entry. It succeeds iff the scanner accepted. |
| NaxsiConfig.ReadConfKeepsSeparated | modules/naxsi/naxsi_src/naxsi_skeleton.c:333-465 | Every directive preserves the invariant: whitelist entries carry a whitelist id, and every target entry has id 0 and targets its collection. |
| NaxsiConfig.AddRuleTargets | modules/naxsi/naxsi_src/naxsi_skeleton.c:352-465 | Filing a rule with whitelist id 0 keeps every entry of each collection one that targets it. |
| NaxsiConfig.RegisteredOnce | modules/naxsi/naxsi_src/naxsi_skeleton.c:286-292 | Over any run of directives, the location is pushed onto the main list once, or not at all if it was already pushed, and ends up marked pushed. |
| NaxsiConfig.ReadAllKeepsSeparated | modules/naxsi/naxsi_src/naxsi_skeleton.c:282-545 | The location invariant holds after any run of directives. |
| NaxsiConfig.MergeInherits | modules/naxsi/naxsi_src/naxsi_skeleton.c:197-214 | The merge keeps each non-empty child collection and takes the parent's for an empty one. GET rules and flags are never inherited. Merging twice equals merging once. |
| NaxsiConfig.MergeKeepsSeparated | modules/naxsi/naxsi_src/naxsi_skeleton.c:197-214 | Merging two locations that satisfy the invariant gives one that satisfies it. |
| NaxsiAccess.DataParse | modules/naxsi/naxsi_src/naxsi_skeleton.c:798 | The parser stand-in can only set `block`, never clear it. |
| NaxsiAccess.AccessHandler | modules/naxsi/naxsi_src/naxsi_skeleton.c:699-822 | The context flags, the counters and the return code equal `Handle` of the old state. An existing context is kept, a new one is fresh, and the rest of the location is unchanged. |
| NaxsiAccess.Reentry | modules/naxsi/naxsi_src/naxsi_skeleton.c:715-723 | A request that is over gets DECLINED, and one waiting for its body gets DONE. Neither changes context or counters. |
| NaxsiAccess.DeclinesWithoutContext | modules/naxsi/naxsi_src/naxsi_skeleton.c:724-738 | A missing configuration returns ERROR. A disabled or force-disabled location, or an internal request, returns DECLINED. None of these attaches a context or changes the counters. |
| NaxsiAccess.EvaluatesExactly | modules/naxsi/naxsi_src/naxsi_skeleton.c:745-821 | `request_processed` rises by one iff the call evaluates (`Evaluates`), and that call sets `over`. `request_blocked` rises by one iff `block` ends set, with the forbidden page's code returned. Every other call leaves the counters and an existing context alone. |
| NaxsiAccess.Monotone | modules/naxsi/naxsi_src/naxsi_skeleton.c:745-815 | An attached context stays attached. `over` and `block` are never cleared, and the counters never fall. |
| NaxsiAccess.BodyPending | modules/naxsi/naxsi_src/naxsi_skeleton.c:756-778 | A fresh POST/PUT whose body read returns NGX_AGAIN gets `wait_for_body` set and DONE returned, without being evaluated. |
| NaxsiAccess.EvaluatedAtMostOnce | modules/naxsi/naxsi_src/naxsi_skeleton.c:715-821 | Over any interleaving of handler calls and body callbacks: `request_processed` rises by at most one, and not at all once the request is over. `request_blocked` rises by no more than that, and any rise leaves the request over. |
| NaxsiAccess.TwoPhasePost | modules/naxsi/naxsi_src/naxsi_skeleton.c:756-821 | A POST whose body arrives late: the first call returns DONE with `wait_for_body` set and nothing counted. After the callback, the next call evaluates, counts once and returns DECLINED. Any later call returns DECLINED and changes nothing. |

## Left out

- Allocation failures (`ngx_pcalloc`, `ngx_array_create` and `ngx_array_push` returning NULL) are not modelled. Allocation always succeeds in the model.
- The `!alcf || !cf` guards of the configuration handlers are not modelled: the objects always exist.
- `ngx_http_dummy_cfg_parse_one_rule` is defined outside this file. Its outcome is an input: `Some(rule)` or a parse failure.
- `ngx_http_read_client_request_body` is an input: its return code, plus the `ready` flag left by its synchronous call of the payload handler.
- `ngx_http_dummy_payload_handler` is defined elsewhere. In the life-of-a-request lemma it appears as an event that may change `ready` and `wait_for_body`.
- `ngx_http_dummy_data_parse` is reduced to whether it sets `block`. Matching, scoring and the threshold checks of the CheckRules are not part of this file.
- `ngx_http_output_forbidden_page` is an input: its return code.
- Learning mode's clearing of `clcf->post_action` (748-751) is not modelled: the core location configuration is not part of this model.
- Timing with `times()` and all debug logging are not modelled; they have side effects only.
- The counters are unbounded `nat` and their updates are sequential. C's integer width and unsynchronised increments are not modelled.
- `CheckRules.Atoi` reads an optional `-` and then digits. Leading whitespace, `+` and overflow are not modelled, because the scanner only ever starts `atoi` at a digit or `-`.
- Directive names are a `Keyword` datatype. Their spellings are defined in naxsi.h, which is not part of this model.
- The zeroed comparator value is a constructor of its own, `CmpUnset`, rather than the enum's numeric encoding. The error-line logging of `ngx_http_dummy_line_conf_error` is not modelled.
- `NaxsiConfig.LocConf.Merge` requires the parent to be a different object from the child, as nginx always passes it. Sharing of the inherited arrays is not modelled, because collections are values.
- `NaxsiConfig.LocConf.ReadConf` requires the location invariant. `Dispatch`, with the same behaviour, has no such requirement.
- Both handlers read `value[1]` and `value[2]` without checking the argument count. The model instead requires the directive to carry those arguments (`HasArgs`).
- Module registration tables, the configuration constructors and `ngx_http_dummy_init` are nginx framework glue and hashtable building, and are not modelled.
