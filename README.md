# FastAPI homework services: a verified model of their sequential logic

The repository is a set of small FastAPI services. This project models the
parts that do real sequential work rather than handing it to SQL or to the
framework:

- **Background tasks** (`improved_bg_tasks.py`). A registry maps task ids to
  status records, and an asyncio FIFO queue is drained by one worker loop.
  `add_task` stores a `queued` record and enqueues the task. The worker takes
  the head of the queue, marks the record `processing`, then `completed` or
  `failed` with the error text. It stamps `completed_at`, swallows the
  failure and calls `task_done`. Next to this is the duplicate-email check on
  the in-memory `users_db` list. `TaskQueue` holds the state as a value with
  the functions and lemmas about it. `TaskRuntime.Runtime` is a class whose
  fields are that state; its methods change the fields one step at a time and
  are proved equal to the `TaskQueue` functions.
- **InfoHub** (`p2.py`). Password hashing, with SHA-256 as a function
  parameter. The bearer token is the base64url of `"{email}:{name}"` and is
  decoded by splitting at the first `:`. Modules: `InfoHubAuth`, `Base64Url`
  (section 5 of RFC 4648) and `Utf8`. Also the register, login and
  current-user decisions over a users table, and the tag column: `", "`-joined
  names, parsed back by split, strip and drop-empty (`InfoHubTags`, `Text`,
  `Seqs`).
- **Users service** (`swager.py`). The token is the base64url of
  `"{email}-{name}"`, and decoding keeps the bytes before the first `-`. Also
  the 404/400/401 decisions of login, current-user, register and list
  (`UserApi`).
- **Orders** (`validation.py`). The `Order` field bounds, the `name_not_empty`
  validator, the `orders` default, and the duplicate-email and not-found rules
  of `create_user` and `get_user` over a users table and an orders table
  (`Orders`).

Clock readings (`time.time()`, `datetime.now()`) are parameters. The outcome
of a unit of work (`Success` or `Failure(message)`) is an input to the
worker's step. The SQL tables are Dafny maps or sequences.

Where an idealised task registry would behave differently, the model follows the code:

- An id that is already registered is overwritten by plain assignment, not
  rejected.
- The worker has no guard against touching a finished record.
- Cancelling the worker while it awaits a unit of work leaves that record in
  `processing`, but `task_done` still runs in the `finally`.

The `queued → processing → completed/failed` order is therefore proved only
under unique ids (`TaskQueue.Lifecycle`). `TaskQueue.AddTaskCollision` shows
that a collision breaks the invariant. `TaskQueue.TaskIdInjective` shows that
a collision happens exactly when the same name is added twice and both calls
read the same whole second from the clock.

## Model

| member | source | states |
|---|---|---|
| TaskQueue.TaskId | improved_bg_tasks.py:355 | `task_{name}_{secs}`: the id starts with `task_`, then the name, then `_`, then the seconds' digits |
| TaskQueue.TaskIdInjective | improved_bg_tasks.py:355 | two `task_{name}_{secs}` ids are equal only for the same name and the same second |
| TaskQueue.AddTask | improved_bg_tasks.py:352-377 | stores a `queued` record with `created_at` set and no `completed_at` or `error`, replacing any record under that id; every other record is unchanged; exactly one id is appended at the queue's tail; the unfinished count rises by one; the response carries the id and status `queued` |
| TaskQueue.Begin | improved_bg_tasks.py:198-205 | a waiting worker takes the head of the queue and marks its record (if any) `processing`, touching no other record; with an empty queue it stays blocked and nothing changes |
| TaskQueue.Finished | improved_bg_tasks.py:209-221 | on success the record is `completed` with `completed_at` stamped and `error` untouched; on failure it is `failed` with `error` equal to the exception text and `completed_at` stamped |
| TaskQueue.Finish | improved_bg_tasks.py:209-224 | the executing id's record (if any) is finished, no other record changes, the failure is swallowed, `task_done` lowers the unfinished count by exactly one, and the worker waits again |
| TaskQueue.Step | improved_bg_tasks.py:198-224 | one loop turn takes exactly one item off the head and calls `task_done` once, whatever the outcome; an empty queue changes nothing |
| TaskQueue.Cancel | improved_bg_tasks.py:223-228 | cancellation stops the worker for good and changes no record; if it was awaiting a unit of work, `task_done` is still called once |
| TaskQueue.Run | improved_bg_tasks.py:194-230 | any number of turns removes no record, and the loop stops only through cancellation |
| TaskQueue.GetTaskStatus | improved_bg_tasks.py:380-389 | not-found (404, "Task not found") exactly when the id has no record, otherwise the stored record |
| TaskQueue.GetQueueStatus | improved_bg_tasks.py:392-401 | `queue_size` is the queue length and `total_tasks` the number of records; completed, failed and processing count disjoint sets, so their sum is at most `total_tasks` |
| TaskQueue.InitialWellFormed | improved_bg_tasks.py:63-66 | the empty registry, the empty queue and a waiting worker satisfy the invariant |
| TaskQueue.AddTaskPreserves | improved_bg_tasks.py:352-369 | adding a task whose id is neither queued nor running keeps the invariant (queue ids distinct and exactly the `queued` records; `completed_at` set iff finished; `error` set iff failed; unfinished count = queue length + running item) |
| TaskQueue.AddTaskCollision | improved_bg_tasks.py:355-369 | adding a task whose id is already queued or running breaks that invariant: the id is queued twice, or the running task's record is reset to `queued` |
| TaskQueue.BeginPreserves | improved_bg_tasks.py:198-205 | taking the head keeps the invariant |
| TaskQueue.FinishPreserves | improved_bg_tasks.py:209-224 | finishing the running item keeps the invariant |
| TaskQueue.StepPreserves | improved_bg_tasks.py:198-224 | a whole loop turn keeps the invariant |
| TaskQueue.CancelPreserves | improved_bg_tasks.py:226-228 | cancellation keeps the invariant |
| TaskQueue.Lifecycle | improved_bg_tasks.py:204-221 | with unique ids, every event keeps every record and moves its status only `queued → processing → completed/failed`; a new record starts `queued` |
| TaskQueue.TerminalIsFinal | improved_bg_tasks.py:380-389 | with unique ids, a `completed` or `failed` record is never changed again, so `get_task_status` keeps returning the same record |
| TaskQueue.TotalNeverDecreases | improved_bg_tasks.py:397 | records are never removed, so `total_tasks` never decreases |
| TaskQueue.StepTakesHead | improved_bg_tasks.py:200-221 | a turn finishes the record of the head id and changes no other record |
| TaskQueue.RunQueue | improved_bg_tasks.py:198-230 | n turns from a waiting worker remove exactly the first n queued ids and call `task_done` n times |
| TaskQueue.RunPreserves | improved_bg_tasks.py:198-230 | the invariant holds after any number of turns |
| TaskQueue.RunFifo | improved_bg_tasks.py:198-230 | FIFO: with distinct, recorded queued ids, the i-th queued id is finished by the i-th turn's outcome and every other record is unchanged |
| TaskQueue.UserRegistration | improved_bg_tasks.py:270-274 | a known email is refused with 400 "User exists." and `users_db` is unchanged; otherwise the user is appended once, at the end |
| TaskQueue.RegistrationKeepsEmailsUnique | improved_bg_tasks.py:270-274 | registration keeps each email in `users_db` at most once |
| TaskRuntime.Runtime.constructor | improved_bg_tasks.py:63-66 | start-up state: no records, an empty queue, a waiting worker, no users; the invariant holds |
| TaskRuntime.Runtime.AddTask | improved_bg_tasks.py:352-377 | the fields become `TaskQueue.AddTask` of the old state, `users_db` is untouched, and the invariant is kept when the id is not pending |
| TaskRuntime.Runtime.Begin | improved_bg_tasks.py:198-205 | the fields become `TaskQueue.Begin` of the old state and the invariant is kept |
| TaskRuntime.Runtime.Finish | improved_bg_tasks.py:209-224 | the fields become `TaskQueue.Finish` of the old state for this outcome and clock, and the invariant is kept |
| TaskRuntime.Runtime.Step | improved_bg_tasks.py:198-224 | the fields become `TaskQueue.Step` of the old state, and the invariant is kept |
| TaskRuntime.Runtime.ProcessQueue | improved_bg_tasks.py:194-230 | the loop leaves the fields at `TaskQueue.Run` of the old state and keeps the invariant; the queued ids are finished in enqueue order, and no other record changes |
| TaskRuntime.Runtime.Cancel | improved_bg_tasks.py:226-228 | the fields become `TaskQueue.Cancel` of the old state, and the invariant is kept |
| TaskRuntime.Runtime.UserRegistration | improved_bg_tasks.py:270-274 | `users_db` and the result are `TaskQueue.UserRegistration` of the old list; the task state is untouched; unique emails stay unique |
| Text.DecimalRoundTrip | improved_bg_tasks.py:355 | `int(str(n)) == n` for the seconds in a task id |
| Text.Strip | p2.py:204 | `strip()` gives a slice of the input with only whitespace cut off either end, which is itself stripped and lacks every character the input lacks; it is empty exactly for all-whitespace input and the identity on stripped input |
| Seqs.IndexOf | p2.py:99 | the first occurrence of the separator, or none exactly when it does not occur |
| Seqs.Split | p2.py:204 | `split(sep)` gives at least one piece, no piece contains the separator, and joining the pieces gives the input back |
| Seqs.SplitJoin | p2.py:204 | splitting a join of separator-free pieces gives the pieces back |
| Utf8.Concat | p2.py:93-94 | concatenating two UTF-8 strings gives a UTF-8 string |
| Utf8.SplitAtAscii | p2.py:98-99 | cutting a UTF-8 string around an ASCII byte leaves two UTF-8 strings |
| Base64Url.Encode | p2.py:94 | the encoding is four symbols per started block of three bytes |
| Base64Url.Decode | p2.py:98 | accepted text has a length that is a multiple of four and gives three bytes per quantum, less one or two for the last quantum's padding |
| Base64Url.EncodeAlphabet | p2.py:94 | the encoding holds only base64url symbols and `=` padding |
| Base64Url.RoundTrip | p2.py:94-98 | `urlsafe_b64decode(urlsafe_b64encode(b)) == b` for every byte string |
| InfoHubAuth.HashPassword | p2.py:85-89 | `verify_password(p, hash_password(p))` holds for every `p` and any hash function |
| InfoHubAuth.CreateAccessToken | p2.py:92-94 | the token base64url-decodes to exactly the UTF-8 text `"{email}:{name}"` |
| InfoHubAuth.SplitAtColon | p2.py:99 | `split(':', 1)` cuts at the first colon: the left part has no colon, and the parts rebuild the text |
| InfoHubAuth.DecodeAccessToken | p2.py:96-102 | `(None, None)` exactly when the base64 is bad, the bytes are not UTF-8 or there is no `:`; otherwise a colon-free email and the rest as name |
| InfoHubAuth.TokenRoundTrip | p2.py:92-100 | decoding the token of `(e, n)` gives `(e, n)` exactly when `e` has no `:`, whatever `n` holds |
| InfoHubAuth.GetCurrentUser | p2.py:110-124 | 401 "Could not validate credentials" unless the token decodes to a non-empty email and a non-empty name and the email has a row; otherwise that row's public view |
| InfoHubAuth.RegisterUser | p2.py:127-147 | a known email gives 400 and a taken name fails on the UNIQUE constraint, both leaving the table unchanged; otherwise exactly one row is added with the next id and the password's hash; the table's consistency is kept |
| InfoHubAuth.Login | p2.py:150-161 | 401 for an unknown email or a wrong password; otherwise a `bearer` token built from the stored email and name |
| InfoHubAuth.LoginThenAuthenticate | p2.py:110-124 | a token from a successful login authenticates that user when the email is non-empty and colon-free and the name is non-empty |
| InfoHubAuth.EmptyNameIsLockedOut | p2.py:117-119 | a user whose email has no `:` and whose name is empty can log in, but every token they get is refused with 401 |
| InfoHubAuth.RegisterThenLogin | p2.py:127-161 | after a registration succeeds, logging in with the same password succeeds |
| InfoHubTags.Names | p2.py:175 | the tag names in order |
| InfoHubTags.SerializeTags | p2.py:175 | no tags give the empty text; otherwise the pieces between the commas are the first name and each later name behind one blank |
| InfoHubTags.CleanPieces | p2.py:204 | stripping the pieces and dropping empty ones gives clean names from comma-free pieces, and no tags exactly when every piece is blank |
| InfoHubTags.ParseTags | p2.py:204 | a NULL or empty column parses to `[]`; every parsed tag has a non-empty name with no surrounding whitespace and no comma |
| InfoHubTags.ParseSerialize | p2.py:175-204 | parsing the `", "`-joined names gives back the tags when every name is non-empty, stripped and comma-free |
| InfoHubTags.ParseEmptyIff | p2.py:204 | a column parses to no tags exactly when it holds only commas and whitespace |
| InfoHubTags.JoinedChars | p2.py:204 | a join is all separators and blanks exactly when every piece is blank |
| UserApi.TokenFor | swager.py:154-156 | the token base64url-decodes to exactly the UTF-8 text `"{email}-{name}"` |
| UserApi.BeforeDash | swager.py:72 | `split(b"-")[0]`: a dash-free prefix that stops at the first `-`, is the whole input exactly when there is no `-`, and is UTF-8 when the input is |
| UserApi.DecodeAccessToken | swager.py:68-77 | None exactly when the base64 is malformed or the prefix is not UTF-8, never raising; otherwise the bytes before the first `-`, never containing `-` |
| UserApi.TokenRoundTrip | swager.py:72 | the token of `(e, n)` decodes to the part of `e` before its first `-`; this is `e` exactly when `e` has no `-` |
| UserApi.FindByEmail | swager.py:104-105 | `fetchone()` gives the first row with that email, or none exactly when no row has it |
| UserApi.GetCurrentUser | swager.py:96-119 | 401 exactly when the token does not decode or no row has the email; 400 exactly when the row is inactive; success exactly when the token decodes to the email of an active row, with that row's view |
| UserApi.Login | swager.py:137-158 | 404 exactly for an unknown email, 400 exactly for a wrong password; success exactly when the email is known and the password matches, with a `bearer` token of the stored email and name |
| UserApi.RegisterUser | swager.py:176-204 | 400 exactly for a known email, inserting nothing; success exactly for an unknown email, with one active row appended with the next id and returned |
| UserApi.GetUsers | swager.py:219-228 | a limit that is not positive is refused with 422; a limit beyond a 64-bit SQLite INTEGER fails with 500 (the driver's OverflowError); otherwise at most `limit` users, the first ones in table order |
| UserApi.LoginThenCurrentUser | swager.py:96-158 | a token from a successful login authenticates an active user whose email has no `-` |
| UserApi.DashedEmailLockedOut | swager.py:72-112 | a user whose email holds `-` is looked up under the part before it; when no row has that email, every token they get is refused with 401 |
| UserApi.DashedEmailImpersonates | swager.py:72-112 | a user whose email holds `-` is looked up under the part before it; when an active row has that shorter email, their token authenticates as that other row |
| UserApi.RegisterThenLogin | swager.py:137-204 | after registering, logging in with the same email and password gives that user's token |
| UserApi.FindAppended | swager.py:181-195 | a row appended under an email no earlier row has is the one the lookup finds |
| Orders.NameNotEmpty | validation.py:41-46 | an empty or all-whitespace name is refused; any other name is returned unchanged, not trimmed |
| Orders.ProductNameErrors | validation.py:37-46 | the name field has no error exactly when it is not all whitespace; an empty name fails `min_length` first |
| Orders.EffectiveQuantity | validation.py:38 | an omitted quantity is 1, which meets the `gt=0` bound; a given quantity is kept as sent |
| Orders.ValidateOrder | validation.py:36-46 | an order is built exactly when the name is not blank, the quantity (default 1) is positive and the price is positive; each failing field is reported |
| Orders.OrderErrors | validation.py:51 | a list of orders has no errors exactly when every order is valid |
| Orders.ValidateOrders | validation.py:51 | a list is accepted exactly when every order is valid, each order kept in place with its default quantity |
| Orders.ValidateUser | validation.py:48-51 | a user is accepted exactly when `orders` is omitted or every order is valid; an omitted `orders` becomes the empty list; an accepted user keeps name and email, and its orders are the validated inputs, in order; a refusal carries the orders' errors |
| Orders.RowsFor | validation.py:63-67 | one order row per order, in order, all under the user's email |
| Orders.OrdersOf | validation.py:81-91 | reading orders back gives at most as many orders as rows |
| Orders.CreateUser | validation.py:53-71 | 400 exactly for a known email, inserting nothing; 500 with the tables unchanged exactly for a new email with a quantity outside the 64-bit SQLite INTEGER range (the driver's OverflowError, the user row never committed); otherwise one user row and one order row per order under that email, existing rows kept, and the input returned unchanged; every order row keeps belonging to a user |
| Orders.GetUser | validation.py:73-93 | 404 exactly for an unknown email; otherwise the user with exactly the orders stored under that email |
| Orders.OrdersOfAppend | validation.py:81-82 | the orders of appended tables are the orders of each, in order |
| Orders.CreateThenGet | validation.py:53-93 | reading back a user just created gives the user as sent, orders included |
| Orders.CreateLeavesOthers | validation.py:53-93 | creating a user does not change what `get_user` gives for any other email |

## Left out

- The asyncio machinery: the event loop, `asyncio.create_task`, the blocking `await task_queue.get()` and the awaiting of coroutines. A turn of the worker is a transition whose outcome and clock are inputs; an empty queue leaves the state as it is.
- The units of work themselves (SMTP mail, HTTP download, file writes, PIL image resizing, sleeps and the random delay in `run_task`, `sync_task`). They are I/O and appear only as their outcome. The `func` stored in a queue item is therefore not modelled.
- The outer `except Exception` of the worker loop: nothing inside the loop can raise an `Exception` there once the unit of work's failure has been caught.
- FastAPI `BackgroundTasks` scheduling in `send_email_endpoint`, `user_registration` and `upload_image`, the image file write, and logging.
- All SQL: connections, table bootstrap, AUTOINCREMENT beyond a next-id counter, and commits.
- SHA-256 internals. The hash is a function parameter.
- Python's lenient base64 decoding: `urlsafe_b64decode` also reads `+` and `/` as 62 and 63, drops other characters outside the alphabet, and ignores everything after the first quantum that ends in padding. The model treats all of these inputs as a failure, accepting only well-formed base64url.
- `str.encode()` of a token that holds non-ASCII characters.
- EmailStr validation and other pydantic coercion. Emails and names are arbitrary strings.
- `UserCreate.name`'s `min_length=3` in the users service.
- Floating point. `price_per_unit` is a `real`, compared only with 0.
- The `limit` default of 10 in `get_users`.
- UserApi.GetUsers: a limit that is not positive gives 422 with the message only; FastAPI's list of validation errors in the body is not modelled.
- Info_Hub.py, auth.py and mini_prohect.py. Their only non-SQL logic repeats the token code of swager.py, which `UserApi` covers.
- pydantic_models.py, Rest_api.py, dz.py and Token.py are plain CRUD or fixed errors and are not part of this model.
- Text.IsSpace: lists the characters of Python's `str.isspace()` set explicitly (U+1680 included) rather than consulting a Unicode database, so it follows the Unicode version that set was taken from.
- TaskQueue.Lifecycle: proved only when every added id is new, because the code overwrites a colliding id and the worker then moves a record that is no longer the one it dequeued.
- TaskQueue.TerminalIsFinal: same restriction as `TaskQueue.Lifecycle`.
- TaskQueue.Run: states what any number of turns keeps. Its ordering is stated by `TaskQueue.RunFifo`, which needs the queued ids to be distinct and recorded.
- Orders.OrdersOf: its own contract bounds only the length. What it returns is stated by `Orders.CreateThenGet` and `Orders.CreateLeavesOthers`.
