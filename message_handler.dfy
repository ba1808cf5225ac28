/** The decision logic of the bot's main message handler: the free-message
    limit gate, telling voice from text, dropping empty text and commands,
    catching failed transcriptions, choosing between a voice and a text
    reply, and falling back to text when speech synthesis gives nothing.
    Every call the handler makes into the database, the chat platform or the
    language services is an input here, as what that call returned or the
    exception it raised; the result is the list of what the bot sends back,
    in order. A user is a row as the database returns it, with every
    column present, so an absent field is a column holding `NULL`. */
module MessageHandler {
  import opened Common
  import opened Strings
  import SupabaseDb
  import Groq

  /** What the user sent. */
  datatype Incoming = VoiceMessage | TextMessage(text: string) | OtherMessage

  /** What the bot sends back: a text answer, a voice answer, or a chat
      action (the "typing..." or "recording..." indicator). */
  datatype Reply = Answer(text: string) | AnswerVoice(audio: seq<bv8>) | ChatAction(action: string)

  /** The settings the handler reads. */
  datatype HandlerSettings = HandlerSettings(
    adminIds: seq<int>,
    freeMessagesLimit: int,
    voiceResponseMode: string,
    defaultUserLevel: string)

  const LIMIT_REPLY := "You've reached your message limit. Please upgrade to continue."
  const NO_TRANSCRIPT_REPLY := "Could not transcribe your voice message. Please try again."
  const YOU_SAID := "🎤 *You said:* "
  const ERROR_REPLY := "Sorry, I encountered an error processing your message. Please try again."
  const TYPING := "typing"
  const RECORD_VOICE := "record_voice"

  /** Whether the limit gate stops this user with the limit reply: not an
      admin, a positive limit, and at least that many free messages used. */
  predicate OverLimit(settings: HandlerSettings, userId: int, user: SupabaseDb.User)
  {
    && !SupabaseDb.IsAdmin(settings.adminIds, userId)
    && settings.freeMessagesLimit > 0
    && user.freeMessagesUsed.Some?
    && user.freeMessagesUsed.value >= settings.freeMessagesLimit
  }

  /** Whether a message gets past the limit gate: the gate is off for an
      admin and without a positive limit; otherwise the lookup must give a
      user whose used count is set and below the limit. */
  predicate PassesGate(settings: HandlerSettings, userId: int, lookup: Call<SupabaseDb.User>)
  {
    || SupabaseDb.IsAdmin(settings.adminIds, userId)
    || settings.freeMessagesLimit <= 0
    || (&& lookup.Returned?
        && lookup.value.freeMessagesUsed.Some?
        && lookup.value.freeMessagesUsed.value < settings.freeMessagesLimit)
  }

  /** The reply goes out as voice in mode "always", and in mode "mirror"
      when the user spoke. */
  predicate ShouldReplyVoice(mode: string, isVoiceInput: bool)
  {
    mode == "always" || (mode == "mirror" && isVoiceInput)
  }

  /** A transcript the handler refuses: empty, or the error marker of a
      failed transcription. */
  predicate IsFailedTranscript(transcript: string)
  {
    transcript == [] || StartsWith(transcript, Groq.TRANSCRIPTION_ERROR_MARK)
  }

  /** A text the handler ignores: blank, or a command. */
  predicate IsIgnoredText(text: string)
  {
    var t := Strip(text);
    t == [] || StartsWith(t, "/")
  }

  /** `handle_message`, for the user `userId`. A `NULL` used count makes the
      comparison at the gate raise, which ends in the apology.
      - `lookup`: what `get_or_create_user` gives;
      - `transcription`: what downloading and transcribing a voice message gives;
      - `process`: the answer to a user text at a level;
      - `speak`: the audio, if any, synthesised for an answer. */
  function HandleMessage(settings: HandlerSettings, userId: int, incoming: Incoming,
                         lookup: Call<SupabaseDb.User>,
                         transcription: Call<string>,
                         process: (string, Option<string>) -> Call<string>,
                         speak: string -> Call<Option<seq<bv8>>>): (replies: seq<Reply>)
    ensures replies == [] || replies[|replies| - 1].Answer?
    ensures |replies| <= 5
  {
    var gated := !SupabaseDb.IsAdmin(settings.adminIds, userId) && settings.freeMessagesLimit > 0;
    if gated && lookup.Raised? then [Answer(ERROR_REPLY)]
    else if gated && lookup.value.freeMessagesUsed.None? then [Answer(ERROR_REPLY)]
    else if gated && lookup.value.freeMessagesUsed.value >= settings.freeMessagesLimit then [Answer(LIMIT_REPLY)]
    else PastGate(settings, incoming, lookup, transcription, process, speak)
  }

  /** The handler past the limit gate: find the user's text, or stop. */
  function PastGate(settings: HandlerSettings, incoming: Incoming,
                    lookup: Call<SupabaseDb.User>,
                    transcription: Call<string>,
                    process: (string, Option<string>) -> Call<string>,
                    speak: string -> Call<Option<seq<bv8>>>): (replies: seq<Reply>)
    ensures replies == [] || replies[|replies| - 1].Answer?
    ensures |replies| <= 5
    ensures incoming.VoiceMessage? ==> |replies| >= 2 && replies[0] == ChatAction(TYPING)
  {
    match incoming
    case VoiceMessage =>
      [ChatAction(TYPING)] +
      (match transcription
       case Raised(_) => [Answer(ERROR_REPLY)]
       case Returned(transcript) =>
         if IsFailedTranscript(transcript) then [Answer(NO_TRANSCRIPT_REPLY)]
         else [Answer(YOU_SAID + transcript)] + Respond(settings, transcript, true, lookup, process, speak))
    case TextMessage(text) =>
      if IsIgnoredText(text) then []
      else Respond(settings, Strip(text), false, lookup, process, speak)
    case OtherMessage => []
  }

  /** The handler once it has the user's text: answer it, by voice or by
      text, at the user's `level` column as it is, `NULL` included. */
  function Respond(settings: HandlerSettings, userText: string, isVoiceInput: bool,
                   lookup: Call<SupabaseDb.User>,
                   process: (string, Option<string>) -> Call<string>,
                   speak: string -> Call<Option<seq<bv8>>>): (replies: seq<Reply>)
    ensures 1 <= |replies| <= 3 && replies[|replies| - 1].Answer?
    ensures lookup.Returned? ==> |replies| >= 2 && replies[0].ChatAction?
  {
    match lookup
    case Raised(_) => [Answer(ERROR_REPLY)]
    case Returned(user) =>
      var level := user.level;
      var voice := ShouldReplyVoice(settings.voiceResponseMode, isVoiceInput);
      [ChatAction(if voice then RECORD_VOICE else TYPING)] +
      match process(userText, level)
      case Raised(_) => [Answer(ERROR_REPLY)]
      case Returned(response) =>
        if voice then
          match speak(response)
          case Raised(_) => [Answer(ERROR_REPLY)]
          case Returned(audio) =>
            if audio.Some? && |audio.value| > 0 then [AnswerVoice(audio.value), Answer(response)]
            else [Answer(response)]
        else [Answer(response)]
  }

  /** The limit reply opens the answer exactly when the user is over the
      limit, and it is then the only thing sent. */
  lemma LimitReplyOnlyOverLimit(settings: HandlerSettings, userId: int, incoming: Incoming,
                                lookup: Call<SupabaseDb.User>, transcription: Call<string>,
                                process: (string, Option<string>) -> Call<string>,
                                speak: string -> Call<Option<seq<bv8>>>)
    ensures var r := HandleMessage(settings, userId, incoming, lookup, transcription, process, speak);
      (|r| > 0 && r[0] == Answer(LIMIT_REPLY)) <==> lookup.Returned? && OverLimit(settings, userId, lookup.value)
    ensures lookup.Returned? && OverLimit(settings, userId, lookup.value) ==>
      HandleMessage(settings, userId, incoming, lookup, transcription, process, speak) == [Answer(LIMIT_REPLY)]
  {
  }

  /** The gate either lets the message through to the rest of the handler,
      or answers with one reply: the limit reply for a user over the limit,
      and the apology when the lookup raised or the used count is `NULL`. */
  lemma GateOutcome(settings: HandlerSettings, userId: int, incoming: Incoming,
                    lookup: Call<SupabaseDb.User>, transcription: Call<string>,
                    process: (string, Option<string>) -> Call<string>,
                    speak: string -> Call<Option<seq<bv8>>>)
    ensures PassesGate(settings, userId, lookup) ==>
      HandleMessage(settings, userId, incoming, lookup, transcription, process, speak)
        == PastGate(settings, incoming, lookup, transcription, process, speak)
    ensures !PassesGate(settings, userId, lookup) ==>
      HandleMessage(settings, userId, incoming, lookup, transcription, process, speak)
        == [Answer(if lookup.Returned? && OverLimit(settings, userId, lookup.value) then LIMIT_REPLY else ERROR_REPLY)]
  {
  }

  /** A `NULL` used count at the gate gets the apology alone. */
  lemma NullUsedCountApologises(settings: HandlerSettings, userId: int, incoming: Incoming,
                                user: SupabaseDb.User, transcription: Call<string>,
                                process: (string, Option<string>) -> Call<string>,
                                speak: string -> Call<Option<seq<bv8>>>)
    requires !SupabaseDb.IsAdmin(settings.adminIds, userId) && settings.freeMessagesLimit > 0
    requires user.freeMessagesUsed.None?
    ensures HandleMessage(settings, userId, incoming, Returned(user), transcription, process, speak)
         == [Answer(ERROR_REPLY)]
  {
  }

  /** For an admin, or with no positive limit, the answer does not depend on
      how many free messages the user has used. */
  lemma NoGateForAdminsOrWithoutLimit(settings: HandlerSettings, userId: int, incoming: Incoming,
                                      user: SupabaseDb.User, used: Option<int>, transcription: Call<string>,
                                      process: (string, Option<string>) -> Call<string>,
                                      speak: string -> Call<Option<seq<bv8>>>)
    requires SupabaseDb.IsAdmin(settings.adminIds, userId) || settings.freeMessagesLimit <= 0
    ensures HandleMessage(settings, userId, incoming, Returned(user), transcription, process, speak)
         == HandleMessage(settings, userId, incoming, Returned(user.(freeMessagesUsed := used)), transcription, process, speak)
  {
  }

  /** A user the lookup has just created always gets past the gate. */
  lemma NewUserPassesGate(settings: HandlerSettings, userId: int, username: Option<string>, now: SupabaseDb.Instant)
    ensures PassesGate(settings, userId, Returned(SupabaseDb.NewUser(userId, username, settings.defaultUserLevel, now)))
  {
  }

  /** Blank text, a command, and a message that is neither voice nor text
      get no answer at all. */
  lemma IgnoredInputsGetNoReply(settings: HandlerSettings, userId: int, incoming: Incoming,
                                lookup: Call<SupabaseDb.User>, transcription: Call<string>,
                                process: (string, Option<string>) -> Call<string>,
                                speak: string -> Call<Option<seq<bv8>>>)
    requires incoming.OtherMessage? || (incoming.TextMessage? && IsIgnoredText(incoming.text))
    requires PassesGate(settings, userId, lookup)
    ensures HandleMessage(settings, userId, incoming, lookup, transcription, process, speak) == []
  {
  }

  /** A text that is not ignored is answered with the answer to its
      stripped form at the user's level. */
  lemma TextIsAnsweredStripped(settings: HandlerSettings, userId: int, text: string,
                               user: SupabaseDb.User, transcription: Call<string>,
                               process: (string, Option<string>) -> Call<string>,
                               speak: string -> Call<Option<seq<bv8>>>)
    requires !IsIgnoredText(text) && PassesGate(settings, userId, Returned(user))
    requires !ShouldReplyVoice(settings.voiceResponseMode, false)
    requires process(Strip(text), user.level).Returned?
    ensures HandleMessage(settings, userId, TextMessage(text), Returned(user), transcription, process, speak)
         == [ChatAction(TYPING), Answer(process(Strip(text), user.level).value)]
  {
  }

  /** A failed transcription gets only the "could not transcribe" answer,
      after the typing indicator. */
  lemma FailedTranscriptStops(settings: HandlerSettings, userId: int, lookup: Call<SupabaseDb.User>, transcript: string,
                              process: (string, Option<string>) -> Call<string>,
                              speak: string -> Call<Option<seq<bv8>>>)
    requires IsFailedTranscript(transcript)
    requires PassesGate(settings, userId, lookup)
    ensures HandleMessage(settings, userId, VoiceMessage, lookup, Returned(transcript), process, speak)
         == [ChatAction(TYPING), Answer(NO_TRANSCRIPT_REPLY)]
  {
  }

  /** The marker `transcribe_audio` returns for a failed request is always
      recognised as a failed transcription. */
  lemma TranscriptionFallbackIsRecognised(message: string)
    ensures IsFailedTranscript(Groq.TranscriptionText(Groq.Failure(message)))
  {
  }

  /** A good transcript is echoed back before the answer. */
  lemma TranscriptIsEchoed(settings: HandlerSettings, userId: int, user: SupabaseDb.User, transcript: string,
                           process: (string, Option<string>) -> Call<string>,
                           speak: string -> Call<Option<seq<bv8>>>)
    requires !IsFailedTranscript(transcript) && PassesGate(settings, userId, Returned(user))
    ensures var r := HandleMessage(settings, userId, VoiceMessage, Returned(user), Returned(transcript), process, speak);
      |r| >= 3 && r[..2] == [ChatAction(TYPING), Answer(YOU_SAID + transcript)]
  {
  }

  /** The voice path: the voice answer and then the same text; without
      audio, the text alone. */
  lemma VoiceAnswerThenText(settings: HandlerSettings, userId: int, incoming: Incoming,
                            user: SupabaseDb.User, userText: string, isVoiceInput: bool,
                            process: (string, Option<string>) -> Call<string>,
                            speak: string -> Call<Option<seq<bv8>>>)
    requires ShouldReplyVoice(settings.voiceResponseMode, isVoiceInput)
    requires process(userText, user.level).Returned?
    requires speak(process(userText, user.level).value).Returned?
    ensures var response := process(userText, user.level).value;
      var audio := speak(response).value;
      Respond(settings, userText, isVoiceInput, Returned(user), process, speak)
        == [ChatAction(RECORD_VOICE)] +
           (if audio.Some? && |audio.value| > 0 then [AnswerVoice(audio.value), Answer(response)] else [Answer(response)])
  {
  }

  /** The voice reply is chosen in mode "always", and in mode "mirror" for
      voice input only. */
  lemma ReplyModeChoice(isVoiceInput: bool)
    ensures ShouldReplyVoice("always", isVoiceInput)
    ensures ShouldReplyVoice("mirror", true) && !ShouldReplyVoice("mirror", false)
    ensures !ShouldReplyVoice("never", isVoiceInput)
  {
  }

  /** An exception while answering (the lookup, the language model, or
      speech synthesis on the voice path) ends the answer with the one
      apology, and no voice answer goes out. */
  lemma ErrorEndsWithApology(settings: HandlerSettings, userText: string, isVoiceInput: bool,
                             lookup: Call<SupabaseDb.User>,
                             process: (string, Option<string>) -> Call<string>,
                             speak: string -> Call<Option<seq<bv8>>>)
    requires || lookup.Raised?
             || process(userText, lookup.value.level).Raised?
             || (&& ShouldReplyVoice(settings.voiceResponseMode, isVoiceInput)
                 && speak(process(userText, lookup.value.level).value).Raised?)
    ensures var r := Respond(settings, userText, isVoiceInput, lookup, process, speak);
      && |r| > 0 && r[|r| - 1] == Answer(ERROR_REPLY)
      && forall i :: 0 <= i < |r| ==> !r[i].AnswerVoice?
  {
  }

  /** A download or transcription that raises gets the apology right after
      the typing indicator. */
  lemma TranscriptionErrorApologises(settings: HandlerSettings, userId: int, lookup: Call<SupabaseDb.User>,
                                     error: string,
                                     process: (string, Option<string>) -> Call<string>,
                                     speak: string -> Call<Option<seq<bv8>>>)
    requires PassesGate(settings, userId, lookup)
    ensures HandleMessage(settings, userId, VoiceMessage, lookup, Raised(error), process, speak)
         == [ChatAction(TYPING), Answer(ERROR_REPLY)]
  {
  }

  /** Speech synthesis that raises gets the apology after the recording
      indicator, and the text answer is not sent. */
  lemma SpeechErrorApologises(settings: HandlerSettings, user: SupabaseDb.User, userText: string, isVoiceInput: bool,
                              process: (string, Option<string>) -> Call<string>,
                              speak: string -> Call<Option<seq<bv8>>>)
    requires ShouldReplyVoice(settings.voiceResponseMode, isVoiceInput)
    requires process(userText, user.level).Returned?
    requires speak(process(userText, user.level).value).Raised?
    ensures Respond(settings, userText, isVoiceInput, Returned(user), process, speak)
         == [ChatAction(RECORD_VOICE), Answer(ERROR_REPLY)]
  {
  }

  /** A lookup that raises at the limit gate gets the apology alone. */
  lemma GateLookupErrorApologises(settings: HandlerSettings, userId: int, incoming: Incoming, error: string,
                                  transcription: Call<string>,
                                  process: (string, Option<string>) -> Call<string>,
                                  speak: string -> Call<Option<seq<bv8>>>)
    requires !SupabaseDb.IsAdmin(settings.adminIds, userId) && settings.freeMessagesLimit > 0
    ensures HandleMessage(settings, userId, incoming, Raised(error), transcription, process, speak)
         == [Answer(ERROR_REPLY)]
  {
  }

  /** A voice answer goes out only when the mode chooses one for the kind of
      message the user sent. */
  lemma NoVoiceUnlessChosen(settings: HandlerSettings, userId: int, incoming: Incoming,
                            lookup: Call<SupabaseDb.User>, transcription: Call<string>,
                            process: (string, Option<string>) -> Call<string>,
                            speak: string -> Call<Option<seq<bv8>>>)
    ensures var r := HandleMessage(settings, userId, incoming, lookup, transcription, process, speak);
      forall i :: 0 <= i < |r| && r[i].AnswerVoice? ==> ShouldReplyVoice(settings.voiceResponseMode, incoming.VoiceMessage?)
  {
  }

  /** When the mode does not choose a voice answer, the answer goes out as
      text after the typing indicator, whatever the input was. */
  lemma TextReplyWhenNotChosen(settings: HandlerSettings, user: SupabaseDb.User, userText: string, isVoiceInput: bool,
                               process: (string, Option<string>) -> Call<string>,
                               speak: string -> Call<Option<seq<bv8>>>)
    requires !ShouldReplyVoice(settings.voiceResponseMode, isVoiceInput)
    requires process(userText, user.level).Returned?
    ensures Respond(settings, userText, isVoiceInput, Returned(user), process, speak)
         == [ChatAction(TYPING), Answer(process(userText, user.level).value)]
  {
  }
}
