# Cloud-COPASI scheduler core in Dafny

This project models the logic that Cloud-COPASI runs in-house between its web views and the Condor/BOSCO scheduler gateway:

- **The scheduler text protocol and command builders** (`aws/condor_tools.py`):
  - the shell string `run_bosco_command` runs, and its stdout split into lines;
  - the commands `add_bosco_pool` and `remove_bosco_pool` build, including starting and killing an ssh-agent when a key file is given;
  - the `condor_q` listing parser `process_condor_q`;
  - the `condor_submit` acknowledgement parser and its working directory;
  - the argv of `condor_rm`.
- **Pool form validation and the pool views' decision flows** (`pools/pool_views.py`):
  - the scale-up form's rule that exactly one value is given and it is positive;
  - the `extra_nodes` computation;
  - the address and username validators;
  - the uniqueness checks of the form that registers an existing pool;
  - the registration flow: credential probe, gateway add, record creation;
  - the removal flow;
  - EC2 pool termination;
  - the success flag of the pool test page.
- **The job-identifier callback** (`client_api/api_views.py`): authentication by the pool's secret, then the in-place update of the job table.

Modules:

- `Text` (`text.dfy`):
  - ASCII character classes;
  - Python 2 `str.splitlines` with its inverse;
  - decimal digit strings, `int()` and `str()`.
- `CondorTools` (`condor_tools.dfy`): the regular expressions are written as hand-made scanners over characters, each with the property that pins it down.
- `PoolForms` (`pool_forms.dfy`): pure validation functions, with declarative reference definitions for the two validators.
- `PoolViews` (`pool_views.dfy`):
  - the class `PoolStore` holds the pool table, the temporary files on disk, the log of external commands issued and the session errors;
  - its methods are the registration and removal views;
  - EC2 termination and the test page are functions of the oracle results.
- `ApiViews` (`api_views.dfy`): the class `JobStore` holds the job table and the pool secrets; `RegisterJob` is its loop, proved against the reference update `ApplyQueueIds`.

What a spawned process writes or returns is a parameter:

- the gateway's stdout;
- the ssh probe's exit status;
- the `(output, errors, exit_status)` triple of the pool-level add command;
- whether a removal raises.

The deployment's `BOSCO_SETENV` setting is the parameter `setenv`.

The model follows the code as written:

- `process_condor_q` does not skip six header lines. It returns nothing when there are at most six lines. Otherwise it matches every line, and header lines are dropped only because they do not match.
- The acknowledgement parser extracts only the cluster id. It yields -1 instead of failing.
- A pool record is deleted only when the gateway removal returns normally.
- The credentials `username@address` are unique over the whole table, not per owner.
- The secret is compared with plain equality.

## Model

| member | source | states |
|---|---|---|
| Text.SplitLines | cloud_copasi/web_interface/aws/condor_tools.py:26 | no returned line contains a line break |
| Text.SplitTerminated | cloud_copasi/web_interface/aws/condor_tools.py:26 | lines without breaks, each ended by "\n", "\r\n" or "\r" (the last possibly by nothing, and no empty line after a lone "\r" ended by "\n"), split back into exactly those lines |
| Text.SplitLinesPrinted | cloud_copasi/web_interface/aws/condor_tools.py:26 | every text, including one with an unterminated last line or "\r\n"/"\r" breaks, is its split lines each followed by its own terminator |
| Text.SplitLinesUnique | cloud_copasi/web_interface/aws/condor_tools.py:26 | any way of printing a text as terminated lines has exactly the split lines as its lines |
| Text.SplitJoin | cloud_copasi/web_interface/aws/condor_tools.py:26 | splitting the text of lines printed one per line gives back exactly those lines |
| Text.JoinSplit | cloud_copasi/web_interface/aws/condor_tools.py:26 | output with every line ended by "\n" is exactly its lines, each followed by "\n" |
| Text.IntToStringRoundTrip | cloud_copasi/web_interface/aws/condor_tools.py:102 | `str(i)` read back as an integer gives `i`, for every integer |
| Text.IntToString | cloud_copasi/web_interface/aws/condor_tools.py:102 | `str(i)` is a canonical numeral: digits without a leading zero (other than `0` itself), with a `-` only before a non-zero value |
| Text.CanonicalNumeralUnique | cloud_copasi/web_interface/aws/condor_tools.py:102 | a canonical numeral that reads as `i` is exactly `str(i)` |
| CondorTools.RunBoscoCommand | cloud_copasi/web_interface/aws/condor_tools.py:21-28 | the shell string is `source <setenv>; <command>`; the result is stdout split into lines, which joined again give back canonical stdout |
| CondorTools.RunBoscoCommandLines | cloud_copasi/web_interface/aws/condor_tools.py:21-28 | on every stdout, the lines returned are the one list of lines that, each with its own terminator, prints that stdout |
| CondorTools.AddBoscoPool | cloud_copasi/web_interface/aws/condor_tools.py:30-44 | the command built by successive appends is the agent start (when a key is given), then `bosco_cluster --platform P --add A T;`, then the agent kill (when a key is given), run through `run_bosco_command`; the type defaults to `condor` |
| CondorTools.NoAgentWithoutKey | cloud_copasi/web_interface/aws/condor_tools.py:32-39 | without a key file the command neither starts the ssh-agent nor kills it |
| CondorTools.AgentAroundWithKey | cloud_copasi/web_interface/aws/condor_tools.py:32-39 | with a key file the command starts with the agent start and ends with the agent kill |
| CondorTools.AgentKilledIffStarted | cloud_copasi/web_interface/aws/condor_tools.py:32-39 | the command starts the ssh-agent iff a key file is given, and ends by killing it iff a key file is given |
| CondorTools.RemoveBoscoPool | cloud_copasi/web_interface/aws/condor_tools.py:46-48 | the shell string is `run_bosco_command` of `bosco_cluster --remove <address>` |
| CondorTools.RemovePoolAddressRecoverable | cloud_copasi/web_interface/aws/condor_tools.py:48 | the removed address is exactly what follows `bosco_cluster --remove ` in the shell string |
| CondorTools.ParseJobLine | cloud_copasi/web_interface/aws/condor_tools.py:60-75 | a matched line yields a word-character status (ParseRow and ParseJobLineSound give the full characterisation) |
| CondorTools.ProcessCondorQ | cloud_copasi/web_interface/aws/condor_tools.py:50-77 | the lines are those `run_bosco_command("condor_q")` returns; at most six lines give the empty list; otherwise the loop returns the pairs of the matching lines in line order |
| CondorTools.QueueEntriesAppend | cloud_copasi/web_interface/aws/condor_tools.py:62-75 | the pairs of two stretches of output are the pairs of the first followed by those of the second |
| CondorTools.QueueEntriesMember | cloud_copasi/web_interface/aws/condor_tools.py:62-75 | a pair is listed iff some line parses to it |
| CondorTools.QueueEntriesSingle | cloud_copasi/web_interface/aws/condor_tools.py:62-75 | a one-line listing gives that line's pair, or nothing when it does not match |
| CondorTools.ParseRow | cloud_copasi/web_interface/aws/condor_tools.py:60-75 | every row of process 0 with the nine columns, any leading spaces, any column gaps and anything after the command, gives `(int(cluster), status)` |
| CondorTools.ParseJobLineSound | cloud_copasi/web_interface/aws/condor_tools.py:60-64 | a line that yields a pair is a row of process 0: leading spaces, the nine well-formed columns separated by non-empty space gaps, then anything; the pair is `(int(cluster), status)` of that row |
| CondorTools.NonZeroProcessDropped | cloud_copasi/web_interface/aws/condor_tools.py:60-63 | a row whose process number is not exactly `0` does not match |
| CondorTools.SampleRowParses | cloud_copasi/web_interface/aws/condor_tools.py:55-56 | the example row in the source's comment gives (18756, 'R') |
| CondorTools.HeaderLineSkipped | cloud_copasi/web_interface/aws/condor_tools.py:55 | the column header line does not match |
| CondorTools.SampleListing | cloud_copasi/web_interface/aws/condor_tools.py:57-77 | six non-matching lines followed by the example row give exactly [(18756, 'R')] |
| CondorTools.LastAckBefore | cloud_copasi/web_interface/aws/condor_tools.py:91-92 | the position found is a match and no later position before the bound is; None means there is no match before the bound |
| CondorTools.ParseSubmitAck | cloud_copasi/web_interface/aws/condor_tools.py:90-95 | the result is at least -1, and it is -1 iff the acknowledgement pattern matches nowhere |
| CondorTools.AckRoundTrip | cloud_copasi/web_interface/aws/condor_tools.py:91-92 | text in which the marker `submitted to cluster ` is followed by the digits `d`, with no later occurrence of the marker followed by a digit, reports `int(d)`: the whole digit run after that marker (a later marker not followed by a digit does not count) |
| CondorTools.SampleAck | cloud_copasi/web_interface/aws/condor_tools.py:91-92 | "2 job(s) submitted to cluster 18756.\n" reports 18756 |
| CondorTools.PathSplit | cloud_copasi/web_interface/aws/condor_tools.py:82 | `os.path.split`: the tail is the maximal slash-free suffix; the head is the rest, with trailing slashes removed unless it is all slashes |
| CondorTools.EmptyHeadIffBareName | cloud_copasi/web_interface/aws/condor_tools.py:81-83 | the directory `os.path.split` gives is empty exactly when the path contains no slash |
| CondorTools.CondorSubmitCall | cloud_copasi/web_interface/aws/condor_tools.py:79-98 | for a path with a directory part (a bare name makes the source's `Popen` raise): argv is `[condor_submit, file]`, the working directory is the head of the split path and not empty, and the reported id is the acknowledgement parser's result on the stdout: -1 iff no acknowledgement is found |
| CondorTools.CondorRmArgv | cloud_copasi/web_interface/aws/condor_tools.py:100-102 | argv has two elements, `condor_rm` and a canonical numeral that reads back as the queue id; by CanonicalNumeralUnique that numeral is `str(queue_id)` |
| PoolForms.CleanScaleUp | cloud_copasi/web_interface/pools/pool_views.py:242-262 | valid iff exactly one field is non-zero and it is positive; 'You must enter a value.' iff neither is given; 'You must enter only one value.' iff both are |
| PoolForms.HostRun | cloud_copasi/web_interface/pools/pool_views.py:314 | the maximal prefix of `[a-z0-9-.]` characters |
| PoolForms.AddressAcceptedIff | cloud_copasi/web_interface/pools/pool_views.py:312-314 | the address scanner accepts exactly a non-empty `[a-z0-9-.]` host, optionally followed by ':' and a non-empty digit run |
| PoolForms.AddressCompose | cloud_copasi/web_interface/pools/pool_views.py:312-314 | every host name, with or without a numeric port, is accepted |
| PoolForms.AlnumRun | cloud_copasi/web_interface/pools/pool_views.py:317 | the maximal prefix of letters and digits |
| PoolForms.ShapeAfterRun | cloud_copasi/web_interface/pools/pool_views.py:316-317 | after a leading alphanumeric run, the rest of a valid username is a separator followed by a valid username |
| PoolForms.UsernameAcceptedIff | cloud_copasi/web_interface/pools/pool_views.py:316-317 | the username scanner accepts exactly letters, digits and separators `_`/`-`, with no separator first, last or next to another |
| PoolForms.FieldsValidIff | cloud_copasi/web_interface/pools/pool_views.py:310-341 | the field checks hold iff the name has 1 to 100 characters, the address 1 to 200 and the address pattern's shape, the username 1 to 50 and the username pattern's shape, the pool type and platform are among their choices, and the key has 1 to 10000 characters |
| PoolForms.CleanAddPool | cloud_copasi/web_interface/pools/pool_views.py:347-359 | rejected with the name message iff the user already has a pool of that name; otherwise rejected with the credentials message iff `username@address` is in the table for any user; otherwise valid |
| PoolForms.AddPoolFormValidIff | cloud_copasi/web_interface/pools/pool_views.py:310-359 | `is_valid()` holds iff every field passes its checks, the user has no pool of that name and no record holds the credentials `username@address` |
| PoolForms.ValidFormIsFree | cloud_copasi/web_interface/pools/pool_views.py:353-358 | a valid form names no pool of the same user and no credentials already in the table |
| PoolForms.InsertKeepsUnique | cloud_copasi/web_interface/pools/pool_views.py:433-439 | adding a record with a free name and a free address keeps names unique per user and addresses unique |
| PoolForms.RemovalKeepsUnique | cloud_copasi/web_interface/pools/pool_views.py:510 | deleting a record keeps both uniqueness properties |
| PoolViews.ProbeArgv | cloud_copasi/web_interface/pools/pool_views.py:399 | the probe runs `pwd` over ssh with `-o StrictHostKeyChecking=no`, the key file `-i`, the login name `-l` and the address |
| PoolViews.PoolStore.PostAddPool | cloud_copasi/web_interface/pools/pool_views.py:347-441 | an invalid form changes nothing; a valid one ends in a credentials rejection with its message iff the probe fails (only the probe issued), in an add failure with the add-failure message, output and errors iff the gateway add fails (probe, add and removal issued), and otherwise adds exactly one record under the next id (probe and add issued) |
| PoolViews.PoolStore.FormValid | cloud_copasi/web_interface/pools/pool_views.py:384-441 | a failed probe issues only the probe; a failed add issues probe, add and removal, with the errors list of the add-failure message, the output and the errors; a success adds the record `username@address` with the form's name, platform and type; on each of the three return paths the key file is gone again, and the pool table stays unique |
| PoolViews.PoolStore.SavePool | cloud_copasi/web_interface/pools/pool_views.py:433-439 | the new record gets a fresh id, and uniqueness is kept |
| PoolViews.PoolStore.RemovePool | cloud_copasi/web_interface/pools/pool_views.py:488-514 | a missing or foreign pool and an unconfirmed request change nothing; a confirmed request issues the gateway removal and deletes the record iff the removal returned normally, otherwise it keeps the record and stores the error |
| PoolViews.ExtraNodes | cloud_copasi/web_interface/pools/pool_views.py:281-284 | the nodes to add when given (non-zero); otherwise, when `total_pool_size` is present (0 included), `count + extra == total_pool_size`; nothing is computed only when the nodes to add are not given and `total_pool_size` is absent |
| PoolViews.ExtraNodesAfterValidForm | cloud_copasi/web_interface/pools/pool_views.py:242-284 | after a valid form the value is always computed, and it is positive when the nodes to add were given |
| PoolViews.ExtraNodesUnguarded | cloud_copasi/web_interface/pools/pool_views.py:281-284 | for every target size `t` and instance count `c` with `0 < t < c`, the form is valid and the count is `t - c`, which is negative |
| PoolViews.TerminateFlow | cloud_copasi/web_interface/pools/pool_views.py:204-234 | a confirmed termination refreshes, removes from the gateway and then terminates, whatever the removal does; unconfirmed only refreshes |
| PoolViews.TerminateIgnoresRemoval | cloud_copasi/web_interface/pools/pool_views.py:222-227 | the calls and the outcome are the same whether or not the gateway removal raises |
| PoolViews.TestResultPage | cloud_copasi/web_interface/pools/pool_views.py:471-478 | success iff the exit status is 0; output, errors and status are shown as returned |
| ApiViews.ApplyQueueIds | cloud_copasi/web_interface/client_api/api_views.py:65-68 | the updated table has exactly the same job ids |
| ApiViews.LastQueueIdFor | cloud_copasi/web_interface/client_api/api_views.py:65-68 | the value of the last pair naming the job, or None iff no pair names it |
| ApiViews.ApplyQueueIdsSpec | cloud_copasi/web_interface/client_api/api_views.py:65-68 | each job ends with the queue id of its last pair, a job named by no pair is unchanged, and no column other than the queue id changes |
| ApiViews.FirstUnknownJob | cloud_copasi/web_interface/client_api/api_views.py:65-66 | the index of the first pair naming a missing job, or the number of pairs when all exist |
| ApiViews.JobStore.RegisterJob | cloud_copasi/web_interface/client_api/api_views.py:50-75 | the wrong content type, an unknown pool or a wrong secret change nothing; otherwise the pairs before the first missing job are applied in order, and the 201 response `{"status": "created"}` comes iff there is no missing job |
| ApiViews.JobStore.UpdateStatus | cloud_copasi/web_interface/client_api/api_views.py:83-94 | the 201 created response iff the content type is JSON; nothing is written |
| ApiViews.RegisteredTable | cloud_copasi/web_interface/client_api/api_views.py:65-68 | when every listed job exists the whole table is the reference update |
| ApiViews.LaterDuplicateWins | cloud_copasi/web_interface/client_api/api_views.py:65-68 | of two pairs for the same job, the later one's queue id stays |

## Left out

- CondorTools.CondorSubmitCall: a path without a directory part is excluded by the precondition. The source's comment asks for an absolute path; for a bare name `os.path.split` gives the directory `''` and `Popen` raises, which is not modelled.
- Spawning processes, `time.sleep` and logging are left out. Stdout and exit statuses of spawned commands are parameters, and so are the exceptions of the gateway removals.
- PoolViews.PoolStore.FormValid: a probe `Popen` or a pool-level add that raises is not modelled. `form_valid` has no `try`/`finally` around them, so in the source such an exception leaves the key file on disk; the key file is gone again only on the three paths that return.
- `ProbeArgv`: the probe runs with the environment `DISPLAY=''`, which the model does not record.
- Requests are modelled one at a time, each running to completion. In the source the uniqueness check of the form and `pool.save()` are separated by the probe and the gateway add, and nothing checks again at save time, so two overlapping registrations of the same name or credentials can both be saved.
- `AddBoscoPool` returns only the shell string run, because the source only logs the output.
- `pools/condor_tools` is not part of this model. `test_bosco_pool`, the three-result `add_bosco_pool`, `remove_bosco_pool` and `remove_ec2_pool` appear only through their results. They are not connected to the `aws/condor_tools.py` functions of the same name.
- The Django ORM, the forms framework, sessions, templates, redirects and `login_required` are left out. Tables are maps. View results are outcome datatypes. A failed lookup or assertion, which the source leaves uncaught, is an outcome of its own.
- Boto calls and the views built on them are left out: `launch_pool`, `refresh_pool`, `scale_up`, `terminate_pool`, key-pair creation, `EC2PoolAddView`, `EC2PoolDetailsView` and `PoolListView`. `EC2PoolScaleUpView` is modelled only through `extra_nodes`.
- `BoscoPoolDetailsView` and `PoolTestView` make no boto call. Each looks the pool up and asserts that the requesting user owns it, then renders it. They are left out because beyond that lookup they only fill a template; the same lookup and ownership check is modelled in `RemovePool`.
- `UpdateJobStatusView.post` is left out. Its body is `pass`, so it returns no response at all.
- JSON decoding is left out, with the errors of a malformed body or a missing key. The decoded values are typed parameters.
- The character classes are the ASCII ones. `RegexValidator`'s `$` also matches before one trailing newline. The model does not capture that, so it rejects an address or username that ends in "\n", which the source accepts.
- `PoolForms.FieldsValid` models each field's required, maximal-length, validator and choice checks. It does not model Django's messages for them.
- `BoscoPoolRemoveView`'s failure path passes `pool_id` to `reverse_lazy` as a keyword of its own. Django's `reverse` takes URL arguments only through `kwargs`, so building that redirect most likely raises. The model keeps the state the view has reached by then: the record stays and the error is stored. The redirect is not modelled.
- `task_views.py`, `task_tools.py` and the pool launch page script are left out. They hold no in-house logic beyond copying fields.
