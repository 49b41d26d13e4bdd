/** The animation channels of a model scene node: playing an animation in
  * one of three blend modes, advancing a channel's time, looping or
  * finishing it, and signalling the animation's events. The pose
  * computation that follows each update is not modelled. */
module Animation {
  import opened Wrappers
  import opened Arith

  datatype AnimEvent = AnimEvent(time: real, name: string)

  datatype Anim = Anim(name: string, length: real, transitionTime: real, events: seq<AnimEvent>)

  /** Animation properties with the flag bits decoded: loop, blend, overlay
    * and propagate; `scale` zero means "use the model's scale". */
  datatype AnimationProperties = AnimationProperties(
    loop: bool, blend: bool, overlay: bool, propagate: bool, speed: real, scale: real)

  /** The properties of an empty channel. */
  const DefaultProperties := AnimationProperties(false, false, false, false, 1.0, 0.0)

  /** `lipLength` is the length of the lip-sync animation, when there is one. */
  datatype Channel = Channel(
    anim: Option<Anim>,
    lipLength: Option<real>,
    properties: AnimationProperties,
    time: real,
    finished: bool,
    transition: bool,
    freeze: bool)

  datatype BlendMode = Single | Blend | Overlay

  /** The blend flag takes precedence over the overlay flag; with neither
    * the animation plays alone. */
  function GetAnimationBlendMode(p: AnimationProperties): (m: BlendMode)
    ensures m == Blend <==> p.blend
    ensures m == Overlay <==> !p.blend && p.overlay
  {
    if p.blend then Blend else if p.overlay then Overlay else Single
  }

  /** A channel starting `anim` from time zero, with no transition and not
    * frozen. */
  function ResetChannel(anim: Option<Anim>, lipLength: Option<real>, p: AnimationProperties): (c: Channel)
    ensures c.time == 0.0 && !c.finished && !c.transition && !c.freeze
    ensures c.anim == anim && c.properties == p
  {
    Channel(anim, lipLength, p, 0.0, false, false, false)
  }

  const EmptyChannel := ResetChannel(None, None, DefaultProperties)

  /** The animation state of a model scene node. The engine has a fixed
    * number of channels, at least two. */
  datatype Node = Node(channels: seq<Channel>, mode: BlendMode, animationScale: real)

  /** Plays `anim`: Single replaces the first channel; Blend moves an
    * unfinished first channel to the second, frozen, and marks the new one
    * as in transition; Overlay pushes every channel down one place when
    * the node is already in overlay mode and otherwise empties the others. */
  function PlayAnimation(n: Node, anim: Anim, lipLength: Option<real>, p: AnimationProperties): (r: Node)
    requires |n.channels| >= 2
    ensures |r.channels| == |n.channels|
    ensures r.mode == GetAnimationBlendMode(p) && r.animationScale == n.animationScale
    ensures r.channels[0].anim == Some(anim) && r.channels[0].time == 0.0 && !r.channels[0].finished
    ensures r.channels[0].properties.scale == if p.scale == 0.0 then n.animationScale else p.scale
    ensures r.channels[0].transition <==>
              r.mode == Blend && n.channels[0].anim.Some? && !n.channels[0].finished
    ensures r.mode == Single ==> r.channels[1..] == n.channels[1..]
    ensures r.mode == Blend && n.channels[0].anim.Some? && !n.channels[0].finished ==>
              r.channels[1] == n.channels[0].(transition := false, freeze := true)
    ensures r.mode == Blend && !(n.channels[0].anim.Some? && !n.channels[0].finished) ==>
              r.channels[1] == n.channels[1]
    ensures r.mode == Blend ==> r.channels[2..] == n.channels[2..]
    ensures r.mode == Overlay && n.mode == Overlay ==>
              forall i :: 1 <= i < |r.channels| ==> r.channels[i] == n.channels[i - 1]
    ensures r.mode == Overlay && n.mode != Overlay ==>
              forall i :: 1 <= i < |r.channels| ==> r.channels[i] == EmptyChannel
  {
    var props := if p.scale == 0.0 then p.(scale := n.animationScale) else p;
    var mode := GetAnimationBlendMode(props);
    var started := ResetChannel(Some(anim), lipLength, props);
    var channels :=
      match mode
      case Single => [started] + n.channels[1..]
      case Blend =>
        var ch0 := n.channels[0];
        if ch0.anim.Some? && !ch0.finished then
          [started.(transition := true), ch0.(transition := false, freeze := true)] + n.channels[2..]
        else
          [started, n.channels[1]] + n.channels[2..]
      case Overlay =>
        if n.mode == Overlay then [started] + n.channels[..|n.channels| - 1]
        else [started] + seq(|n.channels| - 1, i => EmptyChannel);
    Node(channels, mode, n.animationScale)
  }

  /** Plays the model's animation of that name; an unknown name changes
    * nothing. */
  function PlayAnimationByName(n: Node, lookup: string -> Option<Anim>, name: string, p: AnimationProperties): (r: Node)
    requires |n.channels| >= 2
    ensures lookup(name).None? ==> r == n
    ensures lookup(name).Some? ==> |r.channels| == |n.channels| && r.channels[0].anim == lookup(name)
  {
    match lookup(name)
    case None => n
    case Some(anim) => PlayAnimation(n, anim, None, p)
  }

  /** The first channel holds an animation that has finished. */
  predicate IsAnimationFinished(n: Node)
    requires |n.channels| >= 1
  {
    n.channels[0].anim.Some? && n.channels[0].finished
  }

  // ---------------------------------------------------------------------
  // Updating a channel

  /** A channel with no animation, frozen or finished does not advance. */
  predicate Advances(c: Channel) {
    c.anim.Some? && !c.freeze && !c.finished
  }

  /** The length of the lip-sync animation if there is one, else the
    * animation's own. */
  function Length(c: Channel): real
    requires c.anim.Some?
  {
    if c.lipLength.Some? then c.lipLength.value else c.anim.value.length
  }

  /** The names of the events whose time lies in (lo, hi], in order. */
  function Fired(events: seq<AnimEvent>, lo: real, hi: real): (r: seq<string>)
    ensures |r| <= |events|
    ensures forall x :: x in r <==> exists e :: e in events && lo < e.time <= hi && e.name == x
  {
    if events == [] then []
    else
      var rest := Fired(events[1..], lo, hi);
      assert forall e :: e in events <==> e == events[0] || e in events[1..];
      if lo < events[0].time <= hi then [events[0].name] + rest else rest
  }

  /** Two consecutive intervals fire, between them, exactly the events of
    * the joined interval. */
  lemma {:induction false} FiredSplit(events: seq<AnimEvent>, a: real, b: real, c: real)
    requires a <= b <= c
    ensures multiset(Fired(events, a, c)) == multiset(Fired(events, a, b)) + multiset(Fired(events, b, c))
  {
    if events != [] {
      FiredSplit(events[1..], a, b, c);
    }
  }

  datatype ChannelUpdate = ChannelUpdate(channel: Channel, events: seq<string>)

  /** How far the channel's time moves in a step of `dt`. */
  function Delta(c: Channel, dt: real): real {
    c.properties.speed * dt
  }

  /** The advanced time: the old time plus speed times `dt`, capped at the
    * length. */
  function AdvancedTime(c: Channel, dt: real): (t: real)
    requires c.anim.Some?
    ensures t <= Length(c)
    ensures t == Length(c) || t == c.time + Delta(c, dt)
  {
    MinReal(Length(c), c.time + Delta(c, dt))
  }

  /** The channel after the time has advanced: the transition flag clears
    * once past the transition time; at the end the channel loops back to
    * zero or, without the loop flag, finishes. */
  function Advance(c: Channel, dt: real): (r: Channel)
    requires c.anim.Some?
  {
    var t := AdvancedTime(c, dt);
    var transition := c.transition && !(t >= c.anim.value.transitionTime);
    if t == Length(c) then
      if c.properties.loop then c.(time := 0.0, transition := transition)
      else c.(time := t, transition := transition, finished := true)
    else c.(time := t, transition := transition)
  }

  /** The channel update as the engine writes it: the event test compares
    * each event with the NEW time on both sides, so no event ever fires. */
  function UpdateChannelAsWritten(c: Channel, dt: real): (r: ChannelUpdate)
    ensures r.events == []
  {
    if !Advances(c) then ChannelUpdate(c, [])
    else
      var t := AdvancedTime(c, dt);
      FiredNothingInEmptyInterval(c.anim.value.events, t);
      ChannelUpdate(Advance(c, dt), Fired(c.anim.value.events, t, t))
  }

  lemma FiredNothingInEmptyInterval(events: seq<AnimEvent>, t: real)
    ensures Fired(events, t, t) == []
  {
  }

  /** The engine's update and the corrected one leave the channel in the
    * same state; they differ only in the events they signal. */
  lemma WrittenUpdateKeepsChannel(c: Channel, dt: real)
    ensures UpdateChannelAsWritten(c, dt).channel == UpdateChannel(c, dt).channel
    ensures UpdateChannelAsWritten(c, dt).events == []
  {
  }

  /** An event inside the step's interval that the engine never signals. */
  lemma EventNeverSignalled()
    ensures var anim := Anim("attack", 2.0, 0.0, [AnimEvent(0.5, "hit")]);
            var c := ResetChannel(Some(anim), None, DefaultProperties);
            && UpdateChannelAsWritten(c, 1.0).events == []
            && UpdateChannel(c, 1.0).events == ["hit"]
  {
    var anim := Anim("attack", 2.0, 0.0, [AnimEvent(0.5, "hit")]);
    assert Fired(anim.events[1..], 0.0, 1.0) == [];
  }

  /** Advances the channel and signals the events between its previous
    * and its new time. */
  function UpdateChannel(c: Channel, dt: real): (r: ChannelUpdate)
    ensures !Advances(c) ==> r == ChannelUpdate(c, [])
    ensures Advances(c) ==> r.channel.time <= Length(c) || (c.properties.loop && r.channel.time == 0.0)
    ensures Advances(c) ==>
              r.events == Fired(c.anim.value.events, c.time, MinReal(Length(c), c.time + Delta(c, dt)))
    ensures r.channel.finished && !c.finished ==> !c.properties.loop && r.channel.time == Length(c)
    ensures Advances(c) && c.time + Delta(c, dt) >= Length(c) ==>
              if c.properties.loop then r.channel.time == 0.0 && !r.channel.finished else r.channel.finished
    ensures Advances(c) && r.channel.transition ==> r.channel.time < c.anim.value.transitionTime || c.properties.loop
    ensures r.channel.anim == c.anim && r.channel.properties == c.properties && r.channel.freeze == c.freeze
  {
    if !Advances(c) then ChannelUpdate(c, [])
    else ChannelUpdate(Advance(c, dt), Fired(c.anim.value.events, c.time, AdvancedTime(c, dt)))
  }

  /** A finished channel stays finished and fires nothing. */
  lemma FinishedStaysFinished(c: Channel, dt: real, dt2: real)
    requires UpdateChannel(c, dt).channel.finished
    ensures UpdateChannel(UpdateChannel(c, dt).channel, dt2) == ChannelUpdate(UpdateChannel(c, dt).channel, [])
  {
  }

  /** A step that stays short of the end advances the time by speed times
    * `dt` and leaves the channel running. */
  lemma ShortStep(c: Channel, dt: real)
    requires Advances(c) && c.time + Delta(c, dt) < Length(c)
    ensures var u := UpdateChannel(c, dt);
            && u.channel.time == c.time + Delta(c, dt)
            && Advances(u.channel) && Length(u.channel) == Length(c)
            && u.channel.properties == c.properties && u.channel.anim == c.anim
            && u.events == Fired(c.anim.value.events, c.time, c.time + Delta(c, dt))
  {
  }

  /** Two updates of a channel that does not reach its end signal, between
    * them, exactly the events of one update covering both steps. */
  lemma TwoStepsFireOnce(c: Channel, dt1: real, dt2: real)
    requires Advances(c) && c.properties.speed >= 0.0 && dt1 >= 0.0 && dt2 >= 0.0
    requires c.time + Delta(c, dt1 + dt2) < Length(c)
    ensures var u1 := UpdateChannel(c, dt1);
            var u2 := UpdateChannel(u1.channel, dt2);
            multiset(u1.events) + multiset(u2.events) == multiset(UpdateChannel(c, dt1 + dt2).events)
  {
    var events := c.anim.value.events;
    var d1 := Delta(c, dt1);
    var d2 := Delta(c, dt2);
    Distribute(c.properties.speed, dt1, dt2);
    assert Delta(c, dt1 + dt2) == d1 + d2 && d1 >= 0.0 && d2 >= 0.0;
    var t0 := c.time;
    var t1 := t0 + d1;
    var u1 := UpdateChannel(c, dt1);
    ShortStep(c, dt1);
    assert u1.channel.time == t1 && u1.events == Fired(events, t0, t1);
    var c1 := u1.channel;
    assert Delta(c1, dt2) == d2;
    ShortStep(c1, dt2);
    assert UpdateChannel(c1, dt2).events == Fired(events, t1, t1 + d2);
    ShortStep(c, dt1 + dt2);
    assert UpdateChannel(c, dt1 + dt2).events == Fired(events, t0, t1 + d2);
    FiredSplit(events, t0, t1, t1 + d2);
  }

  lemma Distribute(s: real, dt1: real, dt2: real)
    requires s >= 0.0 && dt1 >= 0.0 && dt2 >= 0.0
    ensures s * dt1 >= 0.0 && s * dt2 >= 0.0
    ensures s * (dt1 + dt2) == s * dt1 + s * dt2
  {
  }

  // ---------------------------------------------------------------------
  // Updating all channels

  datatype NodeUpdate = NodeUpdate(node: Node, events: seq<string>)

  /** Updates each channel on its own, collecting the events of the
    * corrected channel update, first channel first. */
  function UpdateChannels(channels: seq<Channel>, dt: real): (r: (seq<Channel>, seq<string>))
    ensures |r.0| == |channels|
    ensures forall i :: 0 <= i < |channels| ==> r.0[i] == UpdateChannel(channels[i], dt).channel
    ensures forall e :: e in r.1 <==> exists i :: 0 <= i < |channels| && e in UpdateChannel(channels[i], dt).events
    ensures channels != [] ==> UpdateChannel(channels[0], dt).events <= r.1
  {
    if channels == [] then ([], [])
    else
      var u := UpdateChannel(channels[0], dt);
      var rest := UpdateChannels(channels[1..], dt);
      ([u.channel] + rest.0, u.events + rest.1)
  }

  /** Updates every channel in order. The events are those the corrected
    * channel update signals, first channel first; the engine as written
    * signals none (`UpdateChannelAsWritten`), and its channels come out the
    * same (`WrittenUpdateKeepsChannel`). */
  function UpdateAnimations(n: Node, dt: real): (r: NodeUpdate)
    ensures |r.node.channels| == |n.channels|
    ensures forall i :: 0 <= i < |n.channels| ==> r.node.channels[i] == UpdateChannel(n.channels[i], dt).channel
    ensures forall e :: e in r.events <==> exists i :: 0 <= i < |n.channels| && e in UpdateChannel(n.channels[i], dt).events
    ensures (forall i :: 0 <= i < |n.channels| ==> !Advances(n.channels[i])) ==> r.events == []
    ensures r.node.mode == n.mode && r.node.animationScale == n.animationScale
  {
    var u := UpdateChannels(n.channels, dt);
    assert u.1 != [] ==> u.1[0] in u.1;
    NodeUpdate(n.(channels := u.0), u.1)
  }

  /** A freshly played animation is not finished; a non-looping one played
    * alone finishes on the first update that reaches its length. */
  lemma PlayThenFinish(n: Node, anim: Anim, p: AnimationProperties, dt: real)
    requires |n.channels| >= 2 && !p.loop && !p.blend && !p.overlay
    requires p.speed * dt >= anim.length
    ensures !IsAnimationFinished(PlayAnimation(n, anim, None, p))
    ensures IsAnimationFinished(UpdateAnimations(PlayAnimation(n, anim, None, p), dt).node)
  {
    var played := PlayAnimation(n, anim, None, p);
    var c := played.channels[0];
    assert c.time + Delta(c, dt) >= Length(c);
  }
}
