/**
  `useAutoplayAudio`: the `playing`, `needsTap` and `volume` state, the
  delayed autoplay attempt made on mount, the play/pause `toggle`, and the
  button label derived from them. Whether the browser lets `play()` resolve is
  an input (`allowed`); timer firings and clicks are discrete events.
*/
module Audio {
  import opened Wrappers

  /** `useState(0.75)`. */
  const InitialVolume: real := 0.75

  /** What the page reads and writes of the `<audio>` element. */
  datatype Element = Element(paused: bool, muted: bool, volume: real)

  /**
    `element.play()`: an element that is already playing resolves; a paused
    one starts when the autoplay policy allows it and rejects otherwise.
    The promise resolves exactly when the element ends up playing.
  */
  function Play(e: Element, allowed: bool): (r: (Element, bool))
    ensures r.1 <==> !r.0.paused
    ensures r.1 <==> !e.paused || allowed
    ensures r.0.muted == e.muted && r.0.volume == e.volume
  {
    if !e.paused then (e, true)
    else if allowed then (e.(paused := false), true)
    else (e, false)
  }

  /**
    The hook's state: the element behind `audioRef.current` (absent when none
    was rendered), the three state variables, and whether the 150 ms autoplay
    timer is still pending.
  */
  datatype Session = Session(
    element: Option<Element>,
    playing: bool,
    needsTap: bool,
    volume: real,
    autoplayPending: bool)

  /** The events that drive the hook. */
  datatype Event =
    | AutoplayTimerFired(allowed: bool)
    | ToggleClicked(allowed: bool)
    | VolumeChanged(v: real)

  /**
    The state after mount: nothing playing, no prompt, volume 0.75. With an
    element, the effects have set its volume, unmuted it and scheduled the
    autoplay attempt; a fresh element is paused.
  */
  function Mounted(rendered: bool): (s: Session)
    ensures !s.playing && !s.needsTap && s.volume == InitialVolume
    ensures s.autoplayPending <==> rendered
    ensures s.element.Some? <==> rendered
  {
    if rendered then Session(Some(Element(true, false, InitialVolume)), false, false, InitialVolume, true)
    else Session(None, false, false, InitialVolume, false)
  }

  /**
    One event. Whether an element exists never changes; only a volume change
    touches the volume; only the timer clears the pending autoplay attempt,
    and a click never schedules one.
  */
  function Step(s: Session, ev: Event): (r: Session)
    ensures r.element.Some? == s.element.Some?
    ensures !ev.VolumeChanged? ==> r.volume == s.volume
    ensures ev.VolumeChanged? ==> r.volume == ev.v
    ensures r.autoplayPending == (s.autoplayPending && !(ev.AutoplayTimerFired? && s.element.Some?))
  {
    match ev
    case AutoplayTimerFired(allowed) =>
      if !s.autoplayPending || s.element.None? then s
      else
        var (el, ok) := Play(s.element.value, allowed);
        s.(element := Some(el), autoplayPending := false, playing := ok, needsTap := !ok)
    case ToggleClicked(allowed) =>
      if s.element.None? then s
      else if s.element.value.paused then
        var (el, ok) := Play(s.element.value.(muted := false), allowed);
        if ok then s.(element := Some(el), playing := true, needsTap := false)
        else s.(element := Some(el), needsTap := true)
      else s.(element := Some(s.element.value.(paused := true)), playing := false)
    case VolumeChanged(v) =>
      s.(volume := v, element := if s.element.Some? then Some(s.element.value.(volume := v)) else None)
  }

  /** A run of events from a given state. */
  function Run(s: Session, evs: seq<Event>): (r: Session)
    decreases |evs|
  {
    if evs == [] then s else Run(Step(s, evs[0]), evs[1..])
  }

  /**
    The states the hook can be in: `playing` mirrors the element, a prompt
    is never shown while playing, the element is never muted and carries the
    stored volume; without an element nothing ever happens.
  */
  predicate Consistent(s: Session) {
    match s.element
    case None => !s.playing && !s.needsTap && !s.autoplayPending
    case Some(el) =>
      && (s.playing <==> !el.paused)
      && (s.needsTap ==> !s.playing)
      && !el.muted
      && el.volume == s.volume
  }

  /** The button text: "Sound on" while a tap is needed, else "Pause" or "Play". */
  function ButtonText(needsTap: bool, playing: bool): (r: string)
    ensures r == "Sound on" <==> needsTap
    ensures r == "Pause" <==> !needsTap && playing
    ensures r == "Play" <==> !needsTap && !playing
  {
    if needsTap then "Sound on" else if playing then "Pause" else "Play"
  }

  /** The button's `title`: "Enable audio" while a tap is needed, else the text. */
  function ButtonTitle(needsTap: bool, playing: bool): (r: string)
    ensures r == "Enable audio" <==> needsTap
    ensures !needsTap ==> r == ButtonText(needsTap, playing)
  {
    if needsTap then "Enable audio" else ButtonText(needsTap, playing)
  }

  /** Every event keeps a consistent state consistent. */
  lemma StepConsistent(s: Session, ev: Event)
    requires Consistent(s)
    ensures Consistent(Step(s, ev))
  {
  }

  /** Every run of events keeps a consistent state consistent. */
  lemma {:induction false} RunConsistent(s: Session, evs: seq<Event>)
    requires Consistent(s)
    ensures Consistent(Run(s, evs))
    decreases |evs|
  {
    if evs != [] {
      StepConsistent(s, evs[0]);
      RunConsistent(Step(s, evs[0]), evs[1..]);
    }
  }

  /** The button tells the truth: "Pause" exactly while the element plays, "Sound on" exactly while a tap is needed. */
  lemma LabelTracksElement(s: Session)
    requires Consistent(s)
    ensures ButtonText(s.needsTap, s.playing) == "Pause" <==> s.element.Some? && !s.element.value.paused
    ensures ButtonText(s.needsTap, s.playing) == "Sound on" <==> s.needsTap
    ensures ButtonText(s.needsTap, s.playing) == "Play" <==> !s.needsTap && !s.playing
    ensures ButtonTitle(s.needsTap, s.playing) == "Enable audio" <==> s.needsTap
  {
  }

  /** In every state reachable from mount the button tells the truth. */
  lemma ReachableLabelTracksElement(rendered: bool, evs: seq<Event>)
    ensures var s := Run(Mounted(rendered), evs);
      && (ButtonText(s.needsTap, s.playing) == "Pause" <==> s.element.Some? && !s.element.value.paused)
      && (ButtonText(s.needsTap, s.playing) == "Sound on" <==> s.needsTap)
      && (s.element.Some? ==> !s.element.value.muted)
  {
    RunConsistent(Mounted(rendered), evs);
    LabelTracksElement(Run(Mounted(rendered), evs));
  }

  /**
    The autoplay attempt: `play()` resolves when allowed or when a click has
    already started the element; success plays and clears the prompt, failure
    stops and asks for a tap. The attempt is not repeated and nothing else
    changes.
  */
  lemma AutoplayAttempt(s: Session, allowed: bool)
    requires Consistent(s) && s.autoplayPending && s.element.Some?
    ensures var ok := allowed || !s.element.value.paused;
      var t := Step(s, AutoplayTimerFired(allowed));
      && t == s.(element := Some(s.element.value.(paused := !ok)), autoplayPending := false, playing := ok, needsTap := !ok)
      && ButtonText(t.needsTap, t.playing) == (if ok then "Pause" else "Sound on")
  {
  }

  /** A toggle on a paused element unmutes it and plays; success sets `playing` and clears the prompt. */
  lemma TogglePaused(s: Session, allowed: bool)
    requires Consistent(s) && s.element.Some? && s.element.value.paused
    ensures var t := Step(s, ToggleClicked(allowed));
      && (allowed ==> t == s.(element := Some(s.element.value.(paused := false)), playing := true, needsTap := false))
      && (!allowed ==> t == s.(needsTap := true))
  {
  }

  /** A toggle on a playing element pauses it and clears `playing`, leaving `needsTap` alone. */
  lemma TogglePlaying(s: Session, allowed: bool)
    requires Consistent(s) && s.element.Some? && !s.element.value.paused
    ensures var t := Step(s, ToggleClicked(allowed));
      t == s.(element := Some(s.element.value.(paused := true)), playing := false)
  {
  }

  /** Without an element a toggle changes nothing. */
  lemma ToggleWithoutElement(s: Session, allowed: bool)
    requires s.element.None?
    ensures Step(s, ToggleClicked(allowed)) == s
  {
  }

  /** From the blocked state a toggle makes a fresh attempt: it plays if allowed and stays blocked otherwise. */
  lemma ToggleWhenBlocked(s: Session, allowed: bool)
    requires Consistent(s) && s.element.Some? && s.needsTap
    ensures var t := Step(s, ToggleClicked(allowed));
      && (allowed ==> t == s.(element := Some(s.element.value.(paused := false)), playing := true, needsTap := false))
      && (allowed ==> ButtonText(t.needsTap, t.playing) == "Pause")
      && (!allowed ==> t == s)
  {
  }

  /** Pausing and then playing again (when allowed) returns to the same state. */
  lemma ToggleTwiceFromPlaying(s: Session, first: bool)
    requires Consistent(s) && s.playing
    ensures Step(Step(s, ToggleClicked(first)), ToggleClicked(true)) == s
  {
  }

  /** A volume change stores the value, applies it to the element, and touches nothing else. */
  lemma VolumeOnlyChangesVolume(s: Session, v: real)
    ensures var t := Step(s, VolumeChanged(v));
      && t.volume == v && t.playing == s.playing && t.needsTap == s.needsTap
      && t.autoplayPending == s.autoplayPending
      && t.element.Some? == s.element.Some?
      && (t.element.Some? ==> t.element == Some(s.element.value.(volume := v)))
  {
  }

  /** The `<audio>` element, as far as the page uses it. */
  class AudioElement {
    var paused: bool
    var muted: bool
    var volume: real

    function State(): Element
      reads this
    {
      Element(paused, muted, volume)
    }

    /** A freshly created element: paused, unmuted, full volume. */
    constructor ()
      ensures paused && !muted && volume == 1.0
    {
      paused, muted, volume := true, false, 1.0;
    }

    /** `play()`, with the autoplay policy's answer as input. */
    method PlayRequest(allowed: bool) returns (resolved: bool)
      modifies this
      ensures (State(), resolved) == Play(old(State()), allowed)
    {
      if !paused {
        resolved := true;
      } else if allowed {
        paused := false;
        resolved := true;
      } else {
        resolved := false;
      }
    }

    /** `pause()`. */
    method Pause()
      modifies this
      ensures State() == old(State()).(paused := true)
    {
      paused := true;
    }
  }

  /** The hook's state held in place; `audio` is `audioRef.current`. */
  class AudioController {
    const audio: AudioElement?
    var playing: bool
    var needsTap: bool
    var volume: real
    var autoplayPending: bool

    function State(): Session
      reads this, audio
    {
      Session(if audio == null then None else Some(audio.State()), playing, needsTap, volume, autoplayPending)
    }

    ghost predicate Valid()
      reads this, audio
    {
      Consistent(State())
    }

    /**
      First render and mount: the state starts at `Mounted`; with an element
      the effects apply the volume, unmute it and schedule the autoplay attempt.
    */
    constructor (rendered: bool)
      ensures Valid() && State() == Mounted(rendered)
      ensures rendered ==> audio != null && fresh(audio)
    {
      if rendered {
        audio := new AudioElement();
      } else {
        audio := null;
      }
      playing, needsTap, volume := false, false, InitialVolume;
      autoplayPending := rendered;
      new;
      if audio != null {
        audio.volume := volume;
        audio.muted := false;
        audio.volume := volume;
      }
    }

    /** The 150 ms timer fires: `tryPlay`. */
    method AutoplayTimerFires(allowed: bool)
      requires Valid()
      modifies this, audio
      ensures Valid() && State() == Step(old(State()), AutoplayTimerFired(allowed))
    {
      if autoplayPending && audio != null {
        autoplayPending := false;
        var ok := audio.PlayRequest(allowed);
        if ok {
          playing := true;
          needsTap := false;
        } else {
          playing := false;
          needsTap := true;
        }
      }
      StepConsistent(old(State()), AutoplayTimerFired(allowed));
    }

    /** The button is clicked: `toggle`. */
    method Toggle(allowed: bool)
      requires Valid()
      modifies this, audio
      ensures Valid() && State() == Step(old(State()), ToggleClicked(allowed))
    {
      StepConsistent(State(), ToggleClicked(allowed));
      if audio == null {
        return;
      }
      if audio.paused {
        audio.muted := false;
        var ok := audio.PlayRequest(allowed);
        if ok {
          playing := true;
          needsTap := false;
        } else {
          needsTap := true;
        }
      } else {
        audio.Pause();
        playing := false;
      }
    }

    /** The range input moves: `setVolume(v)`, then the effect applies it to the element. */
    method SetVolume(v: real)
      requires Valid() && 0.0 <= v <= 1.0
      modifies this, audio
      ensures Valid() && State() == Step(old(State()), VolumeChanged(v))
    {
      volume := v;
      if audio != null {
        audio.volume := v;
      }
    }
  }
}
