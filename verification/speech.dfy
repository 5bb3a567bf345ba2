/**
 * The speech orchestrator `speak` of src/speak/speak.ts.
 *
 * The OpenAI client becomes the parameter `tts`, a function from a request to
 * either audio or an error message; the timestamp the filesystem gives a
 * newly written cache file is `fileTime`; MD5 is the uninterpreted `digest`. Every call
 * of the text-to-speech service is recorded in the outcome's `ttsCalls`.
 */
module Speech {
  import opened Common
  import opened AudioCache

  /** The text-to-speech model every request names. */
  const TtsModel: string := "tts-1"

  /** The language assumed when the request names none. */
  const DefaultLanguage: string := "ar"

  /** Name of the header that gives the payload's media type. */
  const ContentTypeHeader: string := "Content-Type"
  /** Name of the header that gives the browser cache policy. */
  const CacheControlHeader: string := "Cache-Control"
  /** The `Content-Type` value of every response: MP3 audio. */
  const AudioMpeg: string := "audio/mpeg"
  /** The `Cache-Control` value of every response: cache for one year (31536000 seconds). */
  const MaxAgeOneYear: string := "max-age=31536000"

  /** `SpeakOptions`: missing `language` and `headers` are `None`. */
  datatype SpeakOptions = SpeakOptions(text: string, language: Option<string>, headers: Option<map<string, string>>)

  /** One request to the text-to-speech service. */
  datatype TtsRequest = TtsRequest(model: string, voice: string, input: string)

  /** The audio and the HTTP headers to send it with. */
  datatype SpeakResponse = SpeakResponse(buffer: Bytes, headers: map<string, string>)

  /** What `speak` throws: the missing text, or the service's failure passed through. */
  datatype SpeakError = MissingText | SynthesisFailed(message: string)

  /** The result of one `speak`, the cache afterwards, and the service calls it made. */
  datatype SpeakOutcome = SpeakOutcome(result: Result<SpeakResponse, SpeakError>, cache: Cache, ttsCalls: seq<TtsRequest>)

  /** The language actually used: the given one, or Arabic when none is given. */
  function ResolveLanguage(language: Option<string>): (r: string)
    ensures language.Some? ==> r == language.value
    ensures language.None? ==> r == "ar"
  {
    language.GetOr(DefaultLanguage)
  }

  /** "onyx" for Arabic and "nova" for any other language string; no language is rejected. */
  function VoiceFor(language: string): (voice: string)
    ensures voice == "onyx" <==> language == "ar"
    ensures voice == "nova" <==> language != "ar"
  {
    if language == "ar" then "onyx" else "nova"
  }

  /**
   * The response headers: the caller's headers, with the content type and the
   * one-year browser cache policy added or overriding the caller's values.
   */
  function FrameHeaders(caller: map<string, string>): (h: map<string, string>)
    ensures h.Keys == caller.Keys + {ContentTypeHeader, CacheControlHeader}
    ensures h[ContentTypeHeader] == AudioMpeg && h[CacheControlHeader] == MaxAgeOneYear
    ensures forall k :: k in caller && k != ContentTypeHeader && k != CacheControlHeader ==> h[k] == caller[k]
  {
    caller[ContentTypeHeader := AudioMpeg][CacheControlHeader := MaxAgeOneYear]
  }

  /** The cache key `speak` uses for `options`. */
  function CacheKey(digest: string -> string, options: SpeakOptions): (key: string)
    ensures options.language.None? ==> key == GenerateHash(digest, options.text, "onyx", "ar")
    ensures options.language.Some? ==>
              key == GenerateHash(digest, options.text, VoiceFor(options.language.value), options.language.value)
  {
    var language := ResolveLanguage(options.language);
    GenerateHash(digest, options.text, VoiceFor(language), language)
  }

  /** The service request `speak` makes for `options` on a cache miss. */
  function RequestFor(options: SpeakOptions): (req: TtsRequest)
    ensures req.model == "tts-1" && req.input == options.text
    ensures req.voice == VoiceFor(ResolveLanguage(options.language))
  {
    TtsRequest(TtsModel, VoiceFor(ResolveLanguage(options.language)), options.text)
  }

  /** The response for `audio`, framed with the caller's headers. */
  function Respond(options: SpeakOptions, audio: Bytes): (r: SpeakResponse)
    ensures r.buffer == audio
    ensures r.headers.Keys == options.headers.GetOr(map[]).Keys + {ContentTypeHeader, CacheControlHeader}
    ensures ContentTypeHeader in r.headers && CacheControlHeader in r.headers
    ensures r.headers[ContentTypeHeader] == AudioMpeg && r.headers[CacheControlHeader] == MaxAgeOneYear
    ensures options.headers.None? ==> r.headers.Keys == {ContentTypeHeader, CacheControlHeader}
    ensures options.headers.Some? ==>
              forall k :: k in options.headers.value && k != ContentTypeHeader && k != CacheControlHeader ==>
                k in r.headers && r.headers[k] == options.headers.value[k]
  {
    SpeakResponse(audio, FrameHeaders(options.headers.GetOr(map[])))
  }

  /**
   * `speak(options)`: empty text fails before the cache or the service is
   * touched; a cache hit is served without calling the service; a miss calls
   * the service once and, when it answers, stores its audio under the key
   * before returning it. A service failure is passed through and nothing is
   * stored.
   */
  function Speak(options: SpeakOptions, c: Cache, fileTime: int, digest: string -> string,
                 tts: TtsRequest -> Result<Bytes, string>): (r: SpeakOutcome)
    ensures |r.ttsCalls| <= 1
    ensures options.text == "" ==> r == SpeakOutcome(Failure(MissingText), c, [])
    ensures options.text != "" && Holds(c, CacheKey(digest, options)) ==>
              && r.ttsCalls == []
              && r.result == Success(Respond(options, GetFromCache(c, CacheKey(digest, options)).audio.value))
              && r.cache == GetFromCache(c, CacheKey(digest, options)).cache
    ensures options.text != "" && !Holds(c, CacheKey(digest, options)) ==>
              && r.ttsCalls == [RequestFor(options)]
              && (tts(RequestFor(options)).Failure? ==>
                    r.result == Failure(SynthesisFailed(tts(RequestFor(options)).error)) && r.cache == c)
              && (tts(RequestFor(options)).Success? ==>
                    && r.result == Success(Respond(options, tts(RequestFor(options)).value))
                    && r.cache == SaveToCache(c, CacheKey(digest, options), tts(RequestFor(options)).value, fileTime))
    ensures r.result.Success? ==>
              var h := r.result.value.headers;
              h[ContentTypeHeader] == AudioMpeg && h[CacheControlHeader] == MaxAgeOneYear
    ensures r.result.Success? ==> Holds(r.cache, CacheKey(digest, options))
  {
    if options.text == "" then
      SpeakOutcome(Failure(MissingText), c, [])
    else
      var language := ResolveLanguage(options.language);
      var voice := VoiceFor(language);
      var hash := GenerateHash(digest, options.text, voice, language);
      var lookup := GetFromCache(c, hash);
      if lookup.audio.Some? then
        SpeakOutcome(Success(Respond(options, lookup.audio.value)), lookup.cache, [])
      else
        var request := TtsRequest(TtsModel, voice, options.text);
        match tts(request)
        case Failure(message) =>
          SpeakOutcome(Failure(SynthesisFailed(message)), lookup.cache, [request])
        case Success(audio) =>
          SpeakOutcome(Success(Respond(options, audio)), SaveToCache(lookup.cache, hash, audio, fileTime), [request])
  }

  /**
   * Once a `speak` has succeeded, any later request with the same cache key
   * and non-empty text is answered from the cache with the same audio and no
   * service call, whatever the service would answer this time (`tts1` and
   * `tts2` are its behaviour during the first and the second call).
   */
  lemma SameKeyServedFromCache(first: SpeakOptions, second: SpeakOptions, c: Cache,
                               time1: int, time2: int, digest: string -> string,
                               tts1: TtsRequest -> Result<Bytes, string>,
                               tts2: TtsRequest -> Result<Bytes, string>)
    requires second.text != "" && CacheKey(digest, second) == CacheKey(digest, first)
    requires Speak(first, c, time1, digest, tts1).result.Success?
    ensures var one := Speak(first, c, time1, digest, tts1);
            var two := Speak(second, one.cache, time2, digest, tts2);
            && two.ttsCalls == []
            && two.result.Success?
            && two.result.value.buffer == one.result.value.buffer
  {
  }

  /**
   * After a successful `speak`, a second call with the same text and language
   * (headers and file timestamps may differ) makes no service call, so the
   * two call the service at most once between them, and the second returns
   * the audio the first returned.
   */
  lemma RepeatedSpeakCallsServiceOnce(first: SpeakOptions, second: SpeakOptions, c: Cache,
                                      time1: int, time2: int, digest: string -> string,
                                      tts1: TtsRequest -> Result<Bytes, string>,
                                      tts2: TtsRequest -> Result<Bytes, string>)
    requires second.text == first.text && ResolveLanguage(second.language) == ResolveLanguage(first.language)
    requires Speak(first, c, time1, digest, tts1).result.Success?
    ensures var one := Speak(first, c, time1, digest, tts1);
            var two := Speak(second, one.cache, time2, digest, tts2);
            && |one.ttsCalls + two.ttsCalls| <= 1
            && two.ttsCalls == []
            && two.result.Success?
            && two.result.value.buffer == one.result.value.buffer
  {
    SameKeyServedFromCache(first, second, c, time1, time2, digest, tts1, tts2);
  }

  /**
   * The unescaped separator gives two different requests one key: text
   * "a-nova-zh" in Chinese and text "a" in the language "zh-nova-zh" both
   * hash "a-nova-zh-nova-zh".
   */
  lemma CollidingRequestsShareKey(digest: string -> string, first: SpeakOptions, second: SpeakOptions)
    requires first == SpeakOptions("a-nova-zh", Some("zh"), None)
    requires second == SpeakOptions("a", Some("zh-nova-zh"), None)
    ensures first.text != second.text
    ensures CacheKey(digest, second) == CacheKey(digest, first)
  {
    assert ResolveLanguage(first.language) == "zh" && VoiceFor("zh") == "nova";
    assert ResolveLanguage(second.language) == "zh-nova-zh" && VoiceFor("zh-nova-zh") == "nova";
    assert "a-nova-zh" + "-" + "nova" + "-" + "zh" == "a" + "-" + "nova" + "-" + "zh-nova-zh";
  }

  /**
   * So once the first of those requests has been synthesised, the second is
   * answered with the first one's audio and no service call.
   */
  lemma SeparatorCollisionServesOtherText(c: Cache, time1: int, time2: int, digest: string -> string,
                                          tts1: TtsRequest -> Result<Bytes, string>,
                                          tts2: TtsRequest -> Result<Bytes, string>,
                                          first: SpeakOptions, second: SpeakOptions)
    requires first == SpeakOptions("a-nova-zh", Some("zh"), None)
    requires second == SpeakOptions("a", Some("zh-nova-zh"), None)
    requires Speak(first, c, time1, digest, tts1).result.Success?
    ensures var one := Speak(first, c, time1, digest, tts1);
            var two := Speak(second, one.cache, time2, digest, tts2);
            && two.ttsCalls == []
            && two.result.Success?
            && two.result.value.buffer == one.result.value.buffer
  {
    CollidingRequestsShareKey(digest, first, second);
    SameKeyServedFromCache(first, second, c, time1, time2, digest, tts1, tts2);
  }

  /**
   * A failed synthesis is not cached: when the service (behaving as `tts1`)
   * fails on a request the cache does not hold, the error is passed on, the
   * cache is unchanged, and the same request made again sends the same
   * service request again, whatever the service (now `tts2`) answers.
   */
  lemma FailedSpeakIsNotCached(options: SpeakOptions, c: Cache, time1: int, time2: int,
                               digest: string -> string,
                               tts1: TtsRequest -> Result<Bytes, string>,
                               tts2: TtsRequest -> Result<Bytes, string>)
    requires options.text != "" && !Holds(c, CacheKey(digest, options))
    requires tts1(RequestFor(options)).Failure?
    ensures var one := Speak(options, c, time1, digest, tts1);
            var two := Speak(options, one.cache, time2, digest, tts2);
            && one.cache == c
            && one.result == Failure(SynthesisFailed(tts1(RequestFor(options)).error))
            && one.ttsCalls == [RequestFor(options)]
            && two.ttsCalls == [RequestFor(options)]
  {
  }

  /**
   * Conversely, when the language contains no dash, the joined key string
   * determines the request: equal joined strings mean equal text and equal
   * language. A shared key through `speak` therefore needs a dash in a
   * language string (or a digest collision).
   */
  lemma DashFreeLanguagesGiveDistinctKeys(t1: string, l1: string, t2: string, l2: string)
    requires '-' !in l1 && '-' !in l2
    requires JoinKey(t1, VoiceFor(l1), l1) == JoinKey(t2, VoiceFor(l2), l2)
    ensures t1 == t2 && l1 == l2
  {
  }

  /** A request whose audio the memory tier already holds never reaches the service. */
  lemma MemoryHitNeedsNoService(options: SpeakOptions, c: Cache, fileTime: int, digest: string -> string,
                                tts: TtsRequest -> Result<Bytes, string>)
    requires options.text != "" && CacheKey(digest, options) in c.memory
    ensures Speak(options, c, fileTime, digest, tts).ttsCalls == []
    ensures Speak(options, c, fileTime, digest, tts).cache == c
    ensures Speak(options, c, fileTime, digest, tts).result.value.buffer == c.memory[CacheKey(digest, options)]
  {
  }
}
