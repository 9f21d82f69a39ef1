# pgred core, modelled in Dafny

pgred is a small server that speaks the Redis wire protocol and keeps its
data in a PostgreSQL table `fields (key text primary key, value text)`.
Each client session gets its own backing connection. A request handler
dispatches on the command name without regard to case, and does its work
through three storage helpers:
- **getkey** looks a key up; an absent key is not an error.
- **setkey** upserts a key's value.
- **delkey** looks the key up, then deletes it only if the lookup found it.

This project models those three helpers and the request handler
(`main.go:97-212`).

- `wrappers.dfy` (`Wrappers`): `Option` and `Result`.
- `wire.dfy` (`Wire`): the five reply kinds (status, bulk, integer, null,
  error), the fixed reply texts, and how a helper's outcome picks a reply kind.
- `commands.dfy` (`Commands`): lower-casing of the command name, the
  command table, and the least request length each command accepts.
- `store.dfy` (`Store`):
  - the `fields` table as an abstract map from key to value, held by the
    class `FieldTable`, whose methods change it in place;
  - the statements the adapter sends;
  - getkey, setkey and delkey.
- `dispatcher.dfy` (`Dispatcher`):
  - `Dispatch`, the request handler's meaning as a function;
  - `Handle`, the handler written step by step against a `FieldTable`
    (with `DelKeys`, its DEL loop), proved to produce exactly what `Dispatch`
    says.
- `properties.dfy` (`Properties`): what the handler promises, proved about
  `Dispatch`.
- `session.dfy` (`Session`): two concrete sessions run through `Handle`.

Modelling decisions:

- **Failure of the backing store.** Every statement a command sends can
  fail, and whether it does is an input. `faults[i]` is the outcome of the
  i-th statement the command sends: `None` means success, `Some(text)` means
  the store answered with that error text. Statements past the end of
  `faults` succeed. A failed statement leaves the table as it was.
- **The "no rows" case of getkey.** The driver reports a missing row as an
  error with the text `no rows in result set`, and getkey recognises that
  case by the text alone (`main.go:102`). So a failure whose text is exactly
  that also reads as an absent key, and the model keeps this.
- **Lower-casing.** The name is lowered character by character. The
  characters lowered are ASCII `A`-`Z`, plus U+0130 to `i` and U+212A to `k`,
  the two non-ASCII letters whose lower case is an ASCII letter. Every other
  character is kept; its lower case is itself or a character outside ASCII,
  so keeping it changes no match against the command names.
- **Statements sent.** `Handle` returns a ghost list of the statements it sent
  to the backing store, in order. This states "reaches no storage" as
  `issued == []`, and "changes the table only through the statements it
  sends" as a replay of that list (`Store.Replay`).
- **Transactions.** BEGIN and the verbs COMMIT, ROLLBACK, END and ABORT are
  forwarded, and the store's reply tag is a parameter, `tag`. The adapter
  keeps no transaction state and changes no row itself for them.

Three details of the code that the model keeps:
- delkey sends the delete only when the lookup found the key, and reports
  whether that delete succeeded (`main.go:121-126`).
- The arity check only rejects too few arguments. Extra arguments to ECHO,
  GET and SET are ignored, so `SET k v x` is an ordinary SET.
- PING, FLUSHDB, FLUSHALL, BEGIN and the transaction verbs have no arity
  check at all.

## Model

| member | source | states |
|---|---|---|
| Wire.StatusReply | main.go:145-151 | the status text exactly when the statement succeeded, otherwise the statement's error text as an error reply |
| Wire.ValueReply | main.go:202-209 | an error reply exactly when the lookup failed, carrying its text; a null reply exactly when the key is absent; otherwise the value as a bulk reply |
| Commands.Classify | main.go:135-211 | the case selected is the one whose name list holds the lower-cased name, and the default case exactly when no list does |
| Commands.MinArgs | main.go:139-200 | the least request length a case accepts is at least 1, so the command name alone always meets it; the exact limits are stated by Properties.ArityErrorExactly |
| Commands.Lower | main.go:135 | lower-casing keeps the length of the name |
| Commands.LowerAt | main.go:135 | each character of the lowered name is that character lowered |
| Commands.LowerIdempotent | main.go:135 | lowering twice is lowering once |
| Commands.LowerOfLowerCase | main.go:135 | a name with no upper-case letter is its own lower case |
| Commands.ClassifyIgnoresCase | main.go:135 | names with the same lower case select the same case |
| Commands.ClassifyLower | main.go:135 | a name and its lower case select the same case |
| Store.ReplayAppend | main.go:166-175 | running two statement lists in turn is running their concatenation |
| Store.GetKey | main.go:97-108 | with no failure, the stored value or None for an absent key; an error exactly when the lookup failed with a text other than "no rows", carrying that text; a failure with the "no rows" text reads as an absent key even when the key is present; a value returned is the stored one |
| Store.DelKeyOn | main.go:119-127 | true only for a present key whose delete succeeded, which then removes exactly that key; otherwise the table is unchanged; it sends the lookup, and with no error the delete exactly when it reports true |
| Store.DelKeyLookupFirst | main.go:119-123 | the delete is sent if and only if the lookup succeeded and found the key; a lookup that fails with a text other than "no rows" ends delkey at once with that error, sending no delete and changing nothing; a lookup that fails with "no rows" reads as an absent key: false, no error, no delete |
| Store.DelKeyReports | main.go:119-127 | an absent key, when the lookup succeeds, gives false, no error and no delete; with no failure the result is exactly "was present"; an error is the text of the failed statement; the effect is that of the statements sent |
| Store.FieldTable.constructor | main.go:89-90 | the table starts empty |
| Store.FieldTable.Exec | main.go:145-146 | reports the statement's fault and applies the statement only when it succeeds |
| Store.FieldTable.SetKey | main.go:110-117 | on success the key holds the value and nothing else changes; on failure the table is unchanged and the error is reported |
| Store.FieldTable.DelKey | main.go:119-127 | the deleted flag, the error, the new table and the statements sent are those of DelKeyOn on the old table |
| Dispatcher.DelLoop | main.go:165-176 | the DEL loop replies with a count or an error; a count lies between the starting count and that plus the number of keys |
| Dispatcher.Dispatch | main.go:133-212 | a request that sends no statement leaves the table unchanged, and its only possible error replies are the arity and unknown-command errors |
| Dispatcher.Handle | main.go:133-212 | the reply, the new table and the statements sent are exactly Dispatch's on the old table |
| Dispatcher.DelKeys | main.go:165-176 | the loop over the keys of a DEL produces exactly DelLoop's reply, table and statements |
| Properties.CountPresentDistinct | main.go:165-176 | counting keys present at their own turn counts the distinct present keys |
| Properties.DelLoopCounts | main.go:165-176 | with no failure, DEL replies the number of keys present at their own turn and leaves the table without any of its keys and otherwise unchanged |
| Properties.DelKeyClean | main.go:119-127 | one delkey with no failure removes the key and reports whether it was present |
| Properties.FailingKey | main.go:166-171 | the number of keys a DEL completes before some key's delkey returns an error (a lookup failing with "no rows" is not one; it reads as an absent key) is at most the number of keys |
| Properties.DelLoopFailsAt | main.go:166-171 | a DEL replies with an error exactly when some key's delkey returns an error before its last key is done; a lookup failing with "no rows" reads as an absent key and gives no error |
| Properties.DelLoopPrefix | main.go:166-171 | a failing DEL leaves the table as the DEL of only the keys before the failure does, and its statements begin with that DEL's |
| Properties.DelLoopCleanRows | main.go:165-176 | a DEL none of whose own statements fails replies a count and leaves the table without any of its keys and otherwise unchanged |
| Properties.DelLoopKeepsDeletions | main.go:166-171 | when the statements sent for the keys before the failing one all succeed, a failing DEL leaves the table without exactly those keys: their deletions stay applied |
| Properties.DelLoopStopsAt | main.go:166-171 | a failing DEL sends the statements of the DEL of the keys before the failing one, then the failing key's lookup (and its delete, if sent), and nothing for any later key |
| Properties.DelLoopErrorText | main.go:167-170 | a failing DEL replies with the error text of the last statement it sent |
| Properties.DelLoopOnlyRemoves | main.go:165-176 | whatever fails, a DEL only removes rows of keys it names: it adds no key, changes no value and keeps every key it does not name |
| Properties.DelLoopReplay | main.go:165-176 | DEL changes the table only through the statements it sends |
| Properties.DispatchReplay | main.go:133-212 | every request changes the table only through the statements it sends |
| Properties.DispatchErrors | main.go:133-212 | every error reply is a protocol error with no statement sent, or the error text of the last statement sent |
| Properties.UnknownCommandIsRejected | main.go:210-211 | an unknown name is answered "Unknown command", sends nothing and changes nothing |
| Properties.ArityErrors | main.go:138-200 | ECHO, GET or DEL with fewer than 2, or SET with fewer than 3, give "Wrong number of arguments", send nothing and change nothing |
| Properties.ArityErrorExactly | main.go:138-200 | a request draws the arity error with no statement sent if and only if it is shorter than its command's least length: 2 for ECHO, GET and DEL, 3 for SET, and no limit for the other commands |
| Properties.ExtraArgsIgnored | main.go:138-209 | arguments after those a command reads change nothing in its outcome (DEL excepted, as it reads them all) |
| Properties.DispatchIgnoresCase | main.go:135 | requests differing only in the case of the name get the same reply and table, and send the same statements unless a verb is forwarded as written |
| Properties.PingAndEcho | main.go:136-143 | PING replies PONG and ECHO its argument, neither sending a statement |
| Properties.FlushEmpties | main.go:144-151 | FLUSHDB and FLUSHALL on success reply OK and empty the table; on failure they reply its error and change nothing |
| Properties.SetUpserts | main.go:185-196 | SET on success replies OK, sets its key to its value and changes no other key; on failure it replies the error and changes nothing |
| Properties.GetReads | main.go:197-209 | GET never changes the table; it replies an error exactly when the lookup failed with a text other than "no rows"; with no failure it gives the value, or null for an absent key; an absent key never gives a value |
| Properties.OnlySetAdds | main.go:133-212 | a key absent before a request other than a SET of that key, whatever fails, is still absent after it, so a key no request has SET reads as null |
| Properties.ReadAfterWrite | main.go:185-209 | after a successful SET, a GET of its key replies its value |
| Properties.UpsertOverwrites | main.go:110-117 | SET k v1 then SET k v2 leaves k at v2, and GET k replies v2 |
| Properties.FlushThenGet | main.go:144-151 | after a successful FLUSHDB or FLUSHALL every GET replies null |
| Properties.DelInTurn | main.go:160-176 | with no failure, DEL counts each key that is present when its turn comes |
| Properties.DelCounts | main.go:160-176 | with no failure, DEL replies the number of distinct present keys named, removes all of them and leaves every other key unchanged |
| Properties.DelOne | main.go:160-176 | DEL k replies 1 if k was present and 0 otherwise |
| Properties.DelTwo | main.go:160-176 | DEL k1 k2 replies the sum of the two existence checks for distinct keys, and counts a repeated key once |
| Properties.DelNoRowsLookup | main.go:97-127 | a DEL whose first lookup fails with the "no rows" text replies 0 and keeps the key: that failure reads as an absent key, not as an error |
| Properties.DelFailure | main.go:166-171 | DEL replies an error exactly when some key's delkey returns an error before its last key (a "no rows" lookup failure reads as an absent key), and then leaves the table as the DEL of only the earlier keys does |
| Properties.TransactionsForward | main.go:152-184 | BEGIN sends the serializable BEGIN and the other verbs are sent as written; the reply is the tag or the error; the adapter changes no row |
| Session.ExampleSession | main.go:185-209 | on a fresh table with mixed-case names: GET k is null, SET k v1 is OK, GET k is v1, SET k v2 with an extra argument is OK, GET k is v2 |
| Session.ExampleDelete | main.go:160-209 | on a fresh table: SET k v is OK, DEL k k is 1, GET k is null, SET k without a value is the arity error |

## Left out

- Start-up (`main.go:21-95`) is not modelled: launching the database, waiting for it, creating the schema, and process exit on failure. The model starts from the empty table that schema creation leaves.
- Connection handling is not modelled. Per-session connection acquisition and release (`main.go:214-226`) and the listener loop are I/O. Every session works on the same shared `fields` table; the model follows a single session, and does not model changes that other sessions make to the table.
- Transaction semantics are not modelled, nor are the cross-session properties that depend on them: isolation, rollback hiding uncommitted writes, and visibility of committed writes to other sessions. All of that is PostgreSQL's behaviour. The model forwards the verbs and takes the reply tag (`fmt.Sprint(tags)`, `main.go:158` and `main.go:183`) as a parameter.
- Concurrency between sessions is not modelled, nor is the race in DEL between the existence check and the delete. Within a session, commands run one after another.
- The wire encoding of requests and replies is not modelled (the RESP framing done by the redcon library). Requests are taken as already decoded argument lists with at least the command name.
- Arguments are treated as character strings, not byte strings, including the conversion `string(cmd.Args[i])`.
- Commands.LowerChar: does not model Go's full Unicode lower-casing, only the characters that can affect a match against the command names. A name forwarded verbatim is sent as the client wrote it, so nothing else depends on the lowered text.
- The error texts of the backing store are inputs, not computed.
- A failed statement leaving the table unchanged is an assumption about the store, not something the adapter enforces. It does not hold when the connection drops after the server has already applied a statement: the adapter then replies an error but the table has changed. The "on failure nothing changes" clauses of Store.FieldTable.Exec, Store.FieldTable.SetKey, Store.DelKeyOn, Properties.FlushEmpties and Properties.SetUpserts hold only under this assumption.
