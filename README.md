# SpeechFlow bot core, modelled in Dafny

SpeechFlow is a Telegram bot for practising English. Users send text or
voice messages. The bot transcribes the voice, answers through Groq language
models, and can answer by voice. It keeps per-user counters in Supabase and
enforces a free-message limit.

This project models the parts of the bot that decide things:

- **Groq dispatcher** (`Groq`, groq_client.dfy). The pool holds one client
  per non-blank API key. A round-robin cursor picks the client. Each request
  is retried on the next client until one succeeds or two attempts per
  client are spent. Three operations are built on it: transcription,
  correction and reply generation. Each turns a failed request into a
  fallback value: a marker holding the start of the error for
  transcription, and a fixed value for the other two.
  - The pool is the class `GroqClient`.
  - The retry loop is the method `MakeRequest`. It is proved against the
    pure function `Request`, which is built on `Retry`.
  - The properties of `Request` and `Retry` are stated as lemmas.
- **Settings** (`Config`, config.dfy). Splits the `GROQ_API_KEYS` text
  into keys. Also holds the field defaults.
- **String helpers** (`Strings`, strings.dfy). The Python string
  operations the above relies on: `strip()` with Python's white-space set,
  `split(",")`, `"; ".join(...)`, `startswith` and slicing.
- **Database service** (`SupabaseDb`, supabase_db.dfy). Covers:
  - the record of a new user;
  - the update written after each message, with its day-streak rule;
  - the error-statistics fold;
  - the admin test.
- **Message handler** (`MessageHandler`, message_handler.dfy). The
  decision flow of `handle_message` is a function. It returns the sequence
  of replies and chat actions the bot sends.

Every operation of the database, the chat platform and the language
services is an input to the model, as its result or the exception it
raised:

- A Groq request is an oracle `op: (ApiClient, nat) -> Call<T>`. It takes the
  client and the 0-based attempt number, so each attempt may behave
  differently.
- Clock readings (`now`) are parameters.
- A user is a row as the database returns it, with every column present.
  A field that is `None` is a column holding `NULL`.

## Model

| member | source | states |
|---|---|---|
| Strings.SkipSpaceForward | src/config.py:30 | the first position from a given one that holds no white space: everything skipped is white space |
| Strings.SkipSpaceBackward | src/config.py:30 | the position after the last character before a given one that is not white space: everything skipped is white space |
| Strings.Strip | src/config.py:30 | `strip()` leaves no white space at either end, and gives the empty string exactly when the input is all white space |
| Strings.StripIsSlice | src/config.py:30 | what `strip()` keeps is a contiguous slice of the input with only white space before and after it |
| Strings.StripFixesStripped | src/config.py:30 | a string without white space at its ends is unchanged by `strip()` |
| Strings.StripIdempotent | src/config.py:30 | stripping twice is stripping once |
| Strings.Split | src/config.py:30 | `split(",")` gives one more piece than there are commas, no piece contains a comma, and joining the pieces with "," gives back the input |
| Strings.Take | src/services/groq_client.py:76 | `s[:n]` is a prefix of `s`: all of `s` when `s` is short enough, and exactly its first `n` characters otherwise |
| Strings.StripAll | src/config.py:30 | every element stripped, in place |
| Strings.StripAllSnoc | src/config.py:30 | stripping one more key adds its stripped form at the end |
| Strings.NonEmpty | src/config.py:30 | the filter `if k.strip()` keeps only non-empty strings, each taken from the input |
| Strings.NonEmptySnoc | src/config.py:30 | one more string at the end is kept exactly when it is not empty |
| Strings.NonEmptyLength | src/config.py:30 | the filter keeps one string per non-empty input string |
| Strings.NonEmptyKeepsAll | src/config.py:30 | the filter keeps every non-empty string |
| Strings.NonEmptyEmpty | src/config.py:30 | the filter gives nothing exactly when every input string is empty |
| Strings.NonEmptyKeepsOrder | src/config.py:30 | the filter keeps the input order |
| Strings.NonEmptyOfNonEmpty | src/config.py:30 | the filter leaves a list without empty strings unchanged |
| Strings.NonBlankStripped | src/config.py:30 | the comprehension `[k.strip() for k in keys if k.strip()]` yields only non-empty, stripped strings |
| Strings.NonBlankStrippedSnoc | src/config.py:30 | one more key at the end adds its stripped form exactly when it is not blank |
| Strings.NonBlankStrippedLength | src/config.py:30 | one result per key that is not blank, so never more results than keys |
| Strings.NonBlankStrippedKeepsAll | src/config.py:30 | every key that is not blank appears, stripped, in the result |
| Strings.NonBlankStrippedEmpty | src/config.py:30 | the result is empty exactly when every key is all white space |
| Strings.NonBlankStrippedKeepsOrder | src/config.py:30 | the result is a subsequence of the stripped keys: input order is kept |
| Strings.NonBlankStrippedIdempotent | src/config.py:30 | filtering an already filtered list changes nothing |
| Common.GetOr | src/services/supabase_db.py:63-64 | `d.get(key, default)`: the value when it is there, and the default otherwise |
| Common.Min | src/services/groq_client.py:57 | the smaller of two numbers: at most each, and equal to one of them |
| Strings.IsSpace | src/config.py:30 | the characters Python's `str.isspace()` accepts, which `strip()` with no argument removes |
| Strings.Occurrences | src/config.py:30 | the number of times a character occurs is at most the length of the string |
| Strings.Join | src/services/groq_client.py:57 | `sep.join(pieces)` of no pieces is empty, and begins with the first piece otherwise |
| Strings.JoinSnoc | src/services/groq_client.py:57 | joining one more piece appends the separator and then that piece, so the join is the pieces in order with the separator between each two |
| Strings.NonEmptyCount | src/config.py:30 | the number of non-empty strings is at most the number of strings |
| Strings.StartsWith | src/bot/handlers/message.py:85-96 | `s.startswith(prefix)` holds exactly when `prefix` is a prefix of `s` |
| Config.DefaultSettings | src/config.py:11-21 | the settings with every default: no Groq key, no admin, level "intermediate", and the three given values |
| Config.GroqApiKeysList | src/config.py:29-31 | a list setting comes back unchanged; a text setting gives only non-empty, stripped keys |
| Config.KeysFromText | src/config.py:30 | from text, the keys are the non-blank comma-separated pieces. All of them are kept, stripped and in order, and there are at most commas + 1 of them |
| Config.BlankKeysText | src/config.py:30 | text gives no key exactly when every comma-separated piece is blank |
| Config.NoKeysFromBlankText | src/config.py:30 | `""` and `" , ,"` give no key |
| Config.SplitBlankCommas | src/config.py:30 | `" , ,".split(",")` is `[" ", " ", ""]` |
| Config.DefaultsAreEmpty | src/config.py:11-21 | by default there is no Groq key and no admin, and the level is "intermediate" |
| Groq.AggregateMessage | src/services/groq_client.py:57 | the message starts with "Все Groq клиенты недоступны: ". With at most three errors, all of them follow, joined by "; " |
| Groq.ErrorOf | src/services/groq_client.py:52-53 | the text of a raised error, as `str(e)` gives it |
| Groq.Next | src/services/groq_client.py:34 | the cursor moved on stays inside the pool |
| Groq.NextIsIncrementMod | src/services/groq_client.py:34 | moving the cursor on is `(i + 1) % len(self.clients)` |
| Groq.Slot | src/services/groq_client.py:45-46 | attempt `k` uses a position inside the pool: the cursor moved on once per earlier attempt |
| Groq.SlotIsMod | src/services/groq_client.py:45-46 | attempt `k` uses position `(c0 + k) mod N`, where `c0` is the cursor on entry |
| Groq.AttemptCall | src/services/groq_client.py:46-51 | attempt `k` calls the operation on the client at `Slot(c0, k)` |
| Groq.AttemptErrors | src/services/groq_client.py:52-53 | the collected errors are the `str(e)` of the first `n` attempts, one per attempt, in order |
| Groq.RetryStep | src/services/groq_client.py:46-53 | one attempt: a returned value ends the loop after this call; a raised error is collected and the next attempt follows |
| Groq.PoolStep | src/services/groq_client.py:17-25 | each key read by the constructor adds a client with the stripped key, unless that key is blank |
| Groq.Retry | src/services/groq_client.py:42-57 | the attempt loop never makes more than `2 N` calls. A returned value ends it right after that call. A failure means the whole budget was spent |
| Groq.Request | src/services/groq_client.py:37-57 | an empty pool fails with "Нет доступных Groq клиентов" and makes no call. A non-empty pool makes between 1 and `2 N` calls |
| Groq.RetryStopsAtFirstSuccess | src/services/groq_client.py:46-51 | if all attempts before `k` fail and attempt `k` returns, the loop returns that value after exactly `k + 1` calls |
| Groq.RetrySuccessIsFirst | src/services/groq_client.py:46-51 | a returned value is the answer of the last attempt made, and every earlier attempt failed |
| Groq.RetryExhausted | src/services/groq_client.py:52-57 | if every remaining attempt fails, the loop makes all `2 N` calls and raises the message built from the errors of all attempts in order |
| Groq.RetryFailureMeansAllRaised | src/services/groq_client.py:45-57 | the loop fails only if every remaining attempt failed |
| Groq.RequestSucceeds | src/services/groq_client.py:45-51 | a request returns `v` after `k + 1` calls exactly when attempts 0..k-1 fail and attempt `k < 2 N` returns `v` |
| Groq.RequestFails | src/services/groq_client.py:45-57 | a request on a non-empty pool fails exactly when all `2 N` attempts fail. It then made `2 N` calls, and its message holds the first `min(3, 2 N)` errors in order |
| Groq.AggregateKeepsThree | src/services/groq_client.py:57 | with three or more errors, the message is the prefix and then the first three errors, joined by "; " |
| Groq.SlotWithin | src/services/groq_client.py:33-34 | within one round, the position is the start plus the attempt number, wrapping once past the end |
| Groq.SlotFullRounds | src/services/groq_client.py:45-46 | after `2 N` attempts the cursor is back where it started |
| Groq.AttemptReading | src/services/groq_client.py:33-34 | the attempt number among the first `N` that reads a given position lies within the first round |
| Groq.RoundRobinCoversPool | src/services/groq_client.py:33-35 | any `N` consecutive attempts use every client exactly once. From a fresh cursor they use the clients in pool order |
| Groq.ThirdOfThreeSucceeds | src/services/groq_client.py:45-51 | with three clients where the first two fail and the third answers, the request returns the third answer after three calls |
| Groq.SingleFailingClient | src/services/groq_client.py:45-57 | a single client that always fails is tried twice, and both errors appear in the message |
| Groq.FirstAttemptSucceeds | src/services/groq_client.py:50-51 | if the first attempt returns, it is the only call made |
| Groq.GroqClient.constructor | src/services/groq_client.py:13-25 | the pool holds one client per non-blank key, with the stripped key, in key order, all on the Groq base URL with a 60-second timeout; the cursor is at 0 |
| Groq.GroqClient.GetNextClient | src/services/groq_client.py:28-35 | an empty pool gives nothing and leaves the cursor alone. Otherwise it gives the client at the cursor and moves the cursor on by one, back to the first client after the last (`Next`, which is adding one modulo the pool size). The cursor stays inside the pool |
| Groq.GroqClient.MakeRequest | src/services/groq_client.py:37-57 | the outcome and the number of calls are those of `Request` from the cursor on entry, so attempt `k` went to the client at `Slot(c0, k)`. The cursor ends as many positions on as there were calls |
| Groq.GroqClient.TranscribeAudio | src/services/groq_client.py:59-76 | the result is `TranscriptionText` of the dispatched request, which moves the cursor on by its number of calls |
| Groq.GroqClient.CorrectText | src/services/groq_client.py:78-102 | the result is the corrected `Correction` of the dispatched request, which moves the cursor on by its number of calls |
| Groq.GroqClient.GenerateResponse | src/services/groq_client.py:104-121 | the result is `GeneratedReply` of the dispatched request, which moves the cursor on by its number of calls |
| Groq.TranscriptionText | src/services/groq_client.py:71-76 | success gives exactly `strip()` of the transcript. Failure gives "[Transcription error: ", then the first 100 characters of the error, then "]". So a failure always starts with "[Transcription error" |
| Groq.CorrectionFallback | src/services/groq_client.py:97-102 | the fallback keeps the text as the corrected sentence, has no vocabulary and the category "None" |
| Groq.CorrectionAsWritten | src/services/groq_client.py:92-102 | as written, the result is the fallback whether the request succeeds or fails |
| Groq.Correction | src/services/groq_client.py:92-102 | a reply that parses is the result. Anything other than the fallback can only come from a successful, parsed reply |
| Groq.CorrectionAsWrittenIgnoresReply | src/services/groq_client.py:92-102 | as written, `correct_text` always returns the fallback: the text unchanged and no vocabulary |
| Groq.CorrectionAsWrittenLosesParsedReply | src/services/groq_client.py:94 | a reply that parses to a real correction is lost as written and kept by the corrected version |
| Groq.CorrectionOnFailure | src/services/groq_client.py:95-102 | a failed request gives the text unchanged, no vocabulary and the category "None" |
| Groq.GeneratedReply | src/services/groq_client.py:117-121 | success gives the model's reply; failure gives "I'm here to help you practice English. Tell me more!" |
| SupabaseDb.GetOrCreateUser | src/services/supabase_db.py:24-38 | a row that is found is returned as it is. Otherwise the new record `NewUser` is returned: the given id and name, the default level, zero counters, no last activity and the creation time now |
| SupabaseDb.NewUser | src/services/supabase_db.py:27-35 | the inserted record has the given id, the default level, no messages used, no last activity, and the creation time now |
| SupabaseDb.NewUserStartsEmpty | src/services/supabase_db.py:27-35 | a new user has the given id and name, the default level, a zero streak, zero tokens and zero messages, and no last activity |
| SupabaseDb.Before | src/services/supabase_db.py:73 | `today > last_date` on dates: year first, then month, then day |
| SupabaseDb.BeforeIsStrictOrder | src/services/supabase_db.py:73 | the date comparison is a strict order: irreflexive, asymmetric and transitive |
| SupabaseDb.StreakAfter | src/services/supabase_db.py:68-77 | a streak is written only when a last activity lies on an earlier date, and it is then 1 or the old streak plus one |
| SupabaseDb.StreakWithoutLastActive | src/services/supabase_db.py:68-69 | without a last activity the streak is not written |
| SupabaseDb.StreakWrittenOnLaterDay | src/services/supabase_db.py:69-73 | the streak is written exactly when a last activity exists and its date is before today |
| SupabaseDb.StreakOnLaterDay | src/services/supabase_db.py:73-77 | on a later date, the streak grows by one when the day numbers differ by exactly 1, and restarts at 1 otherwise |
| SupabaseDb.StreakRestartsAtMonthEnd | src/services/supabase_db.py:74-77 | 31 January then 1 February restarts the streak at 1 |
| SupabaseDb.StreakGrowsAcrossMonthGap | src/services/supabase_db.py:74-75 | 5 March then 6 April extends the streak by one |
| SupabaseDb.MetricsUpdate | src/services/supabase_db.py:62-79 | the update always holds the token counter plus the tokens used, the message counter plus one, and the time now. It holds the streak exactly when the streak rule gives one, with that value |
| SupabaseDb.NewUserFirstActivity | src/services/supabase_db.py:62-73 | a new user's first update counts one message and the tokens of that message, and writes no streak |
| SupabaseDb.ErrorStats | src/services/supabase_db.py:153-156 | the map has one key per category that occurs. Each key holds the count (0 if missing) of the last row with that category. No rows give an empty map |
| SupabaseDb.IsAdmin | src/services/supabase_db.py:177 | a user is an admin exactly when the id appears among the admin ids |
| SupabaseDb.NobodyIsAdminByDefault | src/services/supabase_db.py:177 | with no admin ids configured, nobody is an admin |
| MessageHandler.HandleMessage | src/bot/handlers/message.py:57-151 | whatever happens, the bot sends at most five things, and when it sends anything the last is a text answer |
| MessageHandler.PassesGate | src/bot/handlers/message.py:62-65 | a message gets past the gate for an admin, without a positive limit, or when the lookup gives a used count that is not `NULL` and is below the limit |
| MessageHandler.GateOutcome | src/bot/handlers/message.py:62-70 | a message that passes the gate gets exactly what the rest of the handler gives; any other gets one reply, the limit reply when over the limit and the apology otherwise |
| MessageHandler.NullUsedCountApologises | src/bot/handlers/message.py:63-65 | with the gate on, a `NULL` used count makes the comparison raise, and the bot sends the apology alone |
| MessageHandler.PastGate | src/bot/handlers/message.py:72-99 | past the gate, the replies end with a text answer when there are any; a voice message always gets the typing indicator first and then at least one answer |
| MessageHandler.Respond | src/bot/handlers/message.py:101-144 | answering sends one to three things and ends with a text answer; once the user is found, a chat action comes first. The user's `level` column goes to processing as it is, `NULL` included |
| MessageHandler.OverLimit | src/bot/handlers/message.py:62-65 | the gate stops a user who is not an admin, when the limit is positive and the messages used, not `NULL`, reach it |
| MessageHandler.ShouldReplyVoice | src/bot/handlers/message.py:106-109 | the reply goes out by voice in mode "always", and in mode "mirror" for voice input |
| MessageHandler.IsFailedTranscript | src/bot/handlers/message.py:85 | a transcript is refused when it is empty or starts with "[Transcription error" |
| MessageHandler.IsIgnoredText | src/bot/handlers/message.py:94-96 | a text is ignored when it is blank after `strip()` or, stripped, starts with "/" |
| MessageHandler.LimitReplyOnlyOverLimit | src/bot/handlers/message.py:62-70 | the limit reply appears exactly when the user is not an admin, the limit is positive and the messages used, not `NULL`, reach it. It is then the only reply |
| MessageHandler.NoGateForAdminsOrWithoutLimit | src/bot/handlers/message.py:62-63 | for an admin, or with a limit of 0 or less, the answer does not depend on the messages used |
| MessageHandler.NewUserPassesGate | src/bot/handlers/message.py:62-65 | a user just created always gets past the gate |
| MessageHandler.IgnoredInputsGetNoReply | src/bot/handlers/message.py:92-99 | text that is blank or a command after `strip()`, and a message that is neither voice nor text, get no reply at all |
| MessageHandler.TextIsAnsweredStripped | src/bot/handlers/message.py:92-144 | other text, answered by text, gets the typing indicator and then the answer to its stripped form at the user's `level` column |
| MessageHandler.FailedTranscriptStops | src/bot/handlers/message.py:73-87 | an empty transcript, or one that starts with "[Transcription error", gets only the typing indicator and "Could not transcribe…" |
| MessageHandler.TranscriptionFallbackIsRecognised | src/bot/handlers/message.py:85 | the marker `transcribe_audio` returns on failure is always recognised as a failed transcript |
| MessageHandler.TranscriptIsEchoed | src/bot/handlers/message.py:89-90 | a good transcript is echoed as "🎤 *You said:* " plus the transcript, right after the typing indicator and before the answer |
| MessageHandler.VoiceAnswerThenText | src/bot/handlers/message.py:111-141 | on the voice path: the recording indicator, then the voice answer and the same text when TTS gives audio, and the text alone when it does not |
| MessageHandler.ReplyModeChoice | src/bot/handlers/message.py:106-109 | a voice answer is chosen in mode "always" for any input, in mode "mirror" for voice input but not for text, and never in mode "never" |
| MessageHandler.NoVoiceUnlessChosen | src/bot/handlers/message.py:106-134 | a voice answer goes out only when the mode chooses one for the kind of message sent |
| MessageHandler.TextReplyWhenNotChosen | src/bot/handlers/message.py:112-144 | when the mode does not choose voice, voice input included, the answer goes out as text after the typing indicator |
| MessageHandler.ErrorEndsWithApology | src/bot/handlers/message.py:102-151 | an exception in the lookup, in processing, or in speech synthesis on the voice path ends the replies with the one apology, and no voice answer is sent |
| MessageHandler.TranscriptionErrorApologises | src/bot/handlers/message.py:76-83 | a download or transcription that raises gets the typing indicator and then the apology, nothing else |
| MessageHandler.SpeechErrorApologises | src/bot/handlers/message.py:112-127 | speech synthesis that raises gets the recording indicator and then the apology; the text answer is not sent |
| MessageHandler.GateLookupErrorApologises | src/bot/handlers/message.py:63-64 | for a non-admin with a positive limit, a lookup that raises at the gate gets the apology alone |

## Left out

- Network and storage I/O are not modelled. The Groq/OpenAI calls, the
  Supabase queries and inserts, and the Telegram downloads each become an
  input: a result or a raised message. The Telegram sends are the model's
  output, the sequence of replies; the sends themselves are not modelled.
- Logging is not modelled; it has no effect on results.
- The pause `asyncio.sleep(0.5 + random.random())` between attempts is a
  no-op step. It is random and uses floating point.
- Concurrent callers interleaving on the shared cursor are not modelled.
  The model is sequential.
- Model names, prompts and request payloads of the three Groq operations
  are left out. They only reach the remote service.
- The JSON parser is not modelled. It is an input `parse` of
  `Groq.Correction`.
- `process_user_message` and `text_to_speech` are inputs of
  `MessageHandler.HandleMessage`. So are `FREE_MESSAGES_LIMIT`,
  `VOICE_RESPONSE_MODE` and the module-level `ADMIN_IDS`. The handler
  imports all of these, but src/config.py and src/services/groq_client.py
  define none of them.
- MessageHandler.HandleMessage: the two `get_or_create_user` calls are
  modelled as giving the same result. The first call might create the row
  that the second one then finds.
- MessageHandler.HandleMessage: a failure while sending a reply or a chat
  action is not modelled. Such a failure would itself lead to the apology.
- SupabaseDb.MetricsUpdate: timestamps are values (`Instant`), not ISO
  text. Parsing `last_active` with `fromisoformat` and its failure on
  malformed text are not modelled. An absent or empty `last_active` is
  `None`.
- SupabaseDb.MetricsUpdate: `now` is one parameter. The code reads the
  clock twice, for the date and for the stored time.
- SupabaseDb.MetricsUpdate: a `NULL` counter column is not modelled. In
  the code, `None + 1` raises, and the exception is logged and swallowed.
  The model reads a `NULL` counter as the default of `.get`.
- MessageHandler.Respond: the default of `user.get("level", ...)` never
  applies, because the row always holds a `level` column. So the model
  passes the column's value, `NULL` included.
- `get_user_stats`: only the `error_stats` fold is modelled. The vocabulary
  count is a backend read. The exception fallback is not modelled: it
  returns every statistic empty when a query raises.
- The other database operations are not modelled: `update_user_level`,
  `add_to_vocabulary`, `log_error` and `get_user_vocabulary`. Each is a
  single backend call with `False` or `[]` on error.
- The text-to-speech client, audio file handling, application wiring,
  keyboards, menus, `/start`, level selection, the `/stats` command and the
  user middleware are not modelled. They are I/O and user-interface code
  outside the bot's decision logic.
- Groq.GroqClient.CorrectText: the method returns the corrected mapping
  `Groq.Correction` of the dispatched request. The program as written
  returns `Groq.CorrectionAsWritten`, which is always the fallback, because
  `json` is never imported (see Findings).

## Findings

| source | as written | input that shows it | evidently intended | confidence | as-written member | corrected member |
|---|---|---|---|---|---|---|
| src/services/groq_client.py:94 | `json.loads(result)` is called, but `json` is never imported (lines 2-6). The `NameError` is caught at line 95, so every successful correction is replaced by the fallback | any successful request whose reply is a valid correction object, e.g. `{"corrected_sentence": "I went home.", ...}` for the text "I goed home." | the parsed reply is returned; the fallback is used only when the request fails or the reply does not parse | high (not executed) | Groq.CorrectionAsWrittenLosesParsedReply | Groq.Correction |
