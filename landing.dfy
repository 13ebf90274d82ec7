/** The landing page: the KSA clock, the audio mute and interaction flags, and
    the rotating system prompt. */
module LandingPage {
  import opened RandomDraw

  // ---------------------------------------------------------------------------
  // KSA clock

  const MsPerSecond: nat := 1000
  const MsPerMinute: nat := 60 * 1000
  const MsPerHour: nat := 60 * 60 * 1000
  /** KSA is UTC+3. */
  const KsaShift: nat := 3 * 60 * 60 * 1000

  /** The hour, minute and second fields of an instant `t` (milliseconds since the
      epoch) read in a zone where it is `t` o'clock: the `getUTC*` fields of `t`. */
  function HoursOf(t: int): (h: nat)
    ensures h < 24
  {
    (t / MsPerHour) % 24
  }

  function MinutesOf(t: int): (m: nat)
    ensures m < 60
  {
    (t / MsPerMinute) % 60
  }

  function SecondsOf(t: int): (sec: nat)
    ensures sec < 60
  {
    (t / MsPerSecond) % 60
  }

  /** `getHours()` and friends read instant `t` in local time, where
      `getTimezoneOffset()` is `offset` minutes (UTC minus local). */
  function LocalClock(t: int, offset: int): int {
    t - offset * MsPerMinute
  }

  function Digit(d: nat): (c: char)
    requires d < 10
    ensures '0' <= c <= '9' && (c as int) - ('0' as int) == d
  {
    (('0' as int) + d) as char
  }

  /** `n.toString()` for a non-negative integer: its decimal digits. */
  function DecimalString(n: nat): (s: string)
    ensures |s| >= 1 && AllDigits(s)
    decreases n
  {
    if n < 10 then [Digit(n)] else DecimalString(n / 10) + [Digit(n % 10)]
  }

  /** One digit exactly for the numbers below 10, and at most two below 100. */
  lemma {:induction false} DecimalStringLength(n: nat)
    ensures |DecimalString(n)| == 1 <==> n < 10
    ensures n < 100 ==> |DecimalString(n)| <= 2
    decreases n
  {
    if n >= 10 {
      DecimalStringLength(n / 10);
    }
  }

  /** The number a string of decimal digits denotes, most significant first. */
  function DigitsValue(s: string): int
    decreases |s|
  {
    if s == [] then 0 else DigitsValue(s[..|s| - 1]) * 10 + ((s[|s| - 1] as int) - ('0' as int))
  }

  /** `toString()` prints `n` itself: its digits read back as `n`. */
  lemma {:induction false} DecimalStringValue(n: nat)
    ensures DigitsValue(DecimalString(n)) == n
    decreases n
  {
    var s := DecimalString(n);
    if n >= 10 {
      DecimalStringValue(n / 10);
      assert s[..|s| - 1] == DecimalString(n / 10);
    }
  }

  /** `s.padStart(target, fill)` with a one-character `fill`. */
  function PadStart(s: string, target: nat, fill: char): (r: string)
    ensures |r| == if |s| >= target then |s| else target
    ensures r[|r| - |s|..] == s
    ensures forall k :: 0 <= k < |r| - |s| ==> r[k] == fill
  {
    if |s| >= target then s else seq(target - |s|, _ => fill) + s
  }

  /** `n.toString().padStart(2, '0')`: at least two characters, all digits. */
  function TwoDigits(n: nat): (s: string)
    ensures |s| >= 2 && AllDigits(s)
  {
    PadStart(DecimalString(n), 2, '0')
  }

  /** The number a two-character string of decimal digits denotes. */
  function ValueOf(s: string): int
    requires |s| == 2
  {
    ((s[0] as int) - ('0' as int)) * 10 + ((s[1] as int) - ('0' as int))
  }

  predicate AllDigits(s: string) {
    forall k :: 0 <= k < |s| ==> '0' <= s[k] <= '9'
  }

  /** Every field below 100 prints as exactly two digits that read back as it. */
  lemma TwoDigitsRoundTrip(n: nat)
    requires n < 100
    ensures |TwoDigits(n)| == 2 && AllDigits(TwoDigits(n)) && ValueOf(TwoDigits(n)) == n
  {
    var d := DecimalString(n);
    DecimalStringLength(n);
    DecimalStringValue(n);
    if |d| == 1 {
      OneDigitValue(d);
      assert TwoDigits(n) == ['0', d[0]] by {
        assert TwoDigits(n) == seq(1, _ => '0') + d;
      }
    } else {
      TwoDigitValue(d);
    }
  }

  lemma OneDigitValue(s: string)
    requires |s| == 1
    ensures DigitsValue(s) == (s[0] as int) - ('0' as int)
  {
    assert s[..0] == [];
  }

  lemma TwoDigitValue(s: string)
    requires |s| == 2
    ensures DigitsValue(s) == ValueOf(s)
  {
    OneDigitValue(s[..1]);
  }

  /** What the clock shows: `HH:MM`, and the seconds `SS` beside the blinking colon. */
  datatype ClockReading = ClockReading(time: string, seconds: string)

  /** What the clock shows for a local wall-clock reading `local`: `HH:MM`, and
      `SS` beside the blinking colon. */
  function Reading(local: int): ClockReading {
    ClockReading(TwoDigits(HoursOf(local)) + ":" + TwoDigits(MinutesOf(local)), TwoDigits(SecondsOf(local)))
  }

  /** Every reading is `HH:MM` and `SS`, two digits per field, and the fields read
      back as the hour, minute and second of `local`. */
  lemma ReadingFormat(local: int)
    ensures var r := Reading(local);
            && |r.time| == 5 && r.time[2] == ':' && |r.seconds| == 2
            && AllDigits(r.time[..2]) && AllDigits(r.time[3..]) && AllDigits(r.seconds)
            && ValueOf(r.time[..2]) == HoursOf(local)
            && ValueOf(r.time[3..]) == MinutesOf(local)
            && ValueOf(r.seconds) == SecondsOf(local)
  {
    var hours, minutes := TwoDigits(HoursOf(local)), TwoDigits(MinutesOf(local));
    TwoDigitsRoundTrip(HoursOf(local));
    TwoDigitsRoundTrip(MinutesOf(local));
    TwoDigitsRoundTrip(SecondsOf(local));
    assert (hours + ":" + minutes)[..2] == hours;
    assert (hours + ":" + minutes)[3..] == minutes;
  }

  /** The instant `updateTime()` builds: `now` plus three hours plus the local
      offset at `now`. */
  function KsaInstant(now: int, offsetNow: int): int {
    now + (KsaShift + offsetNow * MsPerMinute)
  }

  /** One `updateTime()` at instant `now`, where `offsetNow` and `offsetShifted` are
      `getTimezoneOffset()` at `now` and at the shifted instant. */
  function KsaReading(now: int, offsetNow: int, offsetShifted: int): ClockReading {
    Reading(LocalClock(KsaInstant(now, offsetNow), offsetShifted))
  }

  /** Whatever the offsets, even across a daylight-saving change, the time reads
      `HH:MM` and the seconds `SS`, each field two digits that read back as the
      hour, minute and second of the shifted instant in local time. */
  lemma KsaFormat(now: int, offsetNow: int, offsetShifted: int)
    ensures var r := KsaReading(now, offsetNow, offsetShifted);
            var local := LocalClock(KsaInstant(now, offsetNow), offsetShifted);
            && |r.time| == 5 && r.time[2] == ':' && |r.seconds| == 2
            && AllDigits(r.time[..2]) && AllDigits(r.time[3..]) && AllDigits(r.seconds)
            && ValueOf(r.time[..2]) == HoursOf(local)
            && ValueOf(r.time[3..]) == MinutesOf(local)
            && ValueOf(r.seconds) == SecondsOf(local)
  {
    ReadingFormat(LocalClock(KsaInstant(now, offsetNow), offsetShifted));
  }

  /** When the local offset is the same at `now` and at the shifted instant (no
      daylight-saving change in between), the clock shows the UTC fields of
      `now + 3h`, as `HH:MM` and `SS`, zero-padded. */
  lemma KsaIsUtcPlusThree(now: int, offset: int)
    ensures var r := KsaReading(now, offset, offset);
            var ksa := now + KsaShift;
            && |r.time| == 5 && r.time[2] == ':' && |r.seconds| == 2
            && AllDigits(r.time[..2]) && AllDigits(r.time[3..]) && AllDigits(r.seconds)
            && ValueOf(r.time[..2]) == HoursOf(ksa)
            && ValueOf(r.time[3..]) == MinutesOf(ksa)
            && ValueOf(r.seconds) == SecondsOf(ksa)
  {
    assert LocalClock(KsaInstant(now, offset), offset) == now + KsaShift;
    KsaFormat(now, offset, offset);
  }

  /** The `KSAClock` component's state. */
  class KsaClock {
    var time: string
    var seconds: string
    var isBlinking: bool

    constructor ()
      ensures time == "" && seconds == "" && !isBlinking
    {
      time, seconds, isBlinking := "", "", false;
    }

    /** `updateTime()`, run on mount and then every second. */
    method UpdateTime(now: int, offsetNow: int, offsetShifted: int)
      modifies this
      ensures ClockReading(time, seconds) == KsaReading(now, offsetNow, offsetShifted)
      ensures isBlinking == !old(isBlinking)
    {
      var reading := KsaReading(now, offsetNow, offsetShifted);
      time := reading.time;
      seconds := reading.seconds;
      isBlinking := !isBlinking;
    }
  }

  // ---------------------------------------------------------------------------
  // Audio flags

  datatype AudioState = AudioState(isMuted: bool, hasInteracted: bool)

  const InitialAudio: AudioState := AudioState(true, false)

  /** `toggleMute()`: marks the page as interacted with and flips the mute flag. */
  function OnToggleMute(s: AudioState): (r: AudioState)
    ensures r.hasInteracted && r.isMuted == !s.isMuted
  {
    AudioState(!s.isMuted, if !s.hasInteracted then true else s.hasInteracted)
  }

  /** `handleInteraction()`: marks the page as interacted with, once. */
  function OnInteraction(s: AudioState): (r: AudioState)
    ensures r.hasInteracted && r.isMuted == s.isMuted
    ensures s.hasInteracted ==> r == s
  {
    if !s.hasInteracted then s.(hasInteracted := true) else s
  }

  /** A click on the mute button, which also bubbles up to the page's click handler,
      or a click anywhere else on the page. */
  datatype Click = MuteButton | Page

  /** A click: the page is then interacted with, and only a mute-button click
      flips the mute flag. */
  function OnClick(s: AudioState, c: Click): (r: AudioState)
    ensures r.hasInteracted
    ensures r.isMuted == (if c == MuteButton then !s.isMuted else s.isMuted)
  {
    match c
    case MuteButton => OnInteraction(OnToggleMute(s))
    case Page => OnInteraction(s)
  }

  /** The page click that bubbles up from the mute button changes nothing more. */
  lemma BubbleIsHarmless(s: AudioState)
    ensures OnClick(s, MuteButton) == OnToggleMute(s)
  {
  }

  function Replay(s: AudioState, clicks: seq<Click>): AudioState
    decreases |clicks|
  {
    if clicks == [] then s else Replay(OnClick(s, clicks[0]), clicks[1..])
  }

  function MuteClicks(clicks: seq<Click>): nat
    decreases |clicks|
  {
    if clicks == [] then 0 else (if clicks[0] == MuteButton then 1 else 0) + MuteClicks(clicks[1..])
  }

  /** After any clicks, the page has been interacted with exactly when it had been
      before or some click happened (the flag is never reset), and the sound is
      muted exactly when an even number of mute clicks left it as it was. */
  lemma {:induction false} ReplayFlags(s: AudioState, clicks: seq<Click>)
    ensures Replay(s, clicks).hasInteracted == (s.hasInteracted || clicks != [])
    ensures Replay(s, clicks).isMuted == (s.isMuted != (MuteClicks(clicks) % 2 == 1))
    decreases |clicks|
  {
    if clicks != [] {
      ReplayFlags(OnClick(s, clicks[0]), clicks[1..]);
    }
  }

  /** The audio flags and the audio element's `muted` property. */
  class AudioControls {
    var isMuted: bool
    var hasInteracted: bool
    /** `audioRef.current.muted`, kept equal to `isMuted` by the mute effect. */
    var audioMuted: bool

    ghost predicate Valid()
      reads this
    {
      audioMuted == isMuted
    }

    function State(): AudioState
      reads this
    {
      AudioState(isMuted, hasInteracted)
    }

    /** After mount: muted, not interacted with, and the mute effect has run. */
    constructor ()
      ensures Valid() && State() == InitialAudio
    {
      isMuted, hasInteracted := true, false;
      audioMuted := true;
    }

    /** `toggleMute()` followed by the mute effect. It tries to play the audio when
        it unmutes. */
    method ToggleMute() returns (tryPlay: bool)
      requires Valid()
      modifies this
      ensures Valid() && State() == OnToggleMute(old(State()))
      ensures tryPlay == old(isMuted)
    {
      if !hasInteracted {
        hasInteracted := true;
      }
      tryPlay := isMuted;
      isMuted := !isMuted;
      audioMuted := isMuted;
    }

    /** `handleInteraction()`. It tries to play the audio on the first interaction
        when the sound is not muted. */
    method HandleInteraction() returns (tryPlay: bool)
      requires Valid()
      modifies this
      ensures Valid() && State() == OnInteraction(old(State()))
      ensures tryPlay == (!old(hasInteracted) && !isMuted)
    {
      tryPlay := false;
      if !hasInteracted {
        hasInteracted := true;
        tryPlay := !isMuted;
      }
    }
  }

  // ---------------------------------------------------------------------------
  // Random system prompt

  const SystemPrompts: seq<string> := [
    "> System ready. All subsystems nominal.",
    "> Neural network optimization complete.",
    "> Analyzing user engagement patterns...",
    "> Content delivery systems operating at 98.7% efficiency.",
    "> Deploying enhanced recommendation algorithms.",
    "> Security protocols updated to version 3.4.2.",
    "> Predictive analytics module initialized.",
    "> User satisfaction metrics exceeding expectations.",
    "> Synchronizing distributed data nodes...",
    "> AI-driven content curation active.",
    "> Quantum processing units online.",
    "> Biometric authentication systems engaged."
  ]

  /** `systemPrompts[Math.floor(u * systemPrompts.length)]` */
  function PickPrompt(u: real): (p: string)
    requires IsUnit(u)
    ensures p in SystemPrompts
  {
    SystemPrompts[FloorIndex(u, |SystemPrompts|)]
  }

  /** The `RandomSystemPrompt` component's state. */
  class PromptRotator {
    var prompt: string
    /** The animation key; a new key restarts the animation. */
    var key: nat

    ghost predicate Valid()
      reads this
    {
      prompt == "" || prompt in SystemPrompts
    }

    constructor ()
      ensures Valid() && prompt == "" && key == 0
    {
      prompt, key := "", 0;
    }

    /** The effect's first step: an initial random prompt. */
    method Mount(u: real)
      requires IsUnit(u)
      modifies this
      ensures Valid() && prompt == PickPrompt(u) && key == old(key)
    {
      prompt := PickPrompt(u);
    }

    /** The five-second interval: a new key and a new random prompt. */
    method Rotate(u: real)
      requires IsUnit(u)
      modifies this
      ensures Valid() && prompt == PickPrompt(u) && key == old(key) + 1
    {
      key := key + 1;
      prompt := PickPrompt(u);
    }
  }
}
