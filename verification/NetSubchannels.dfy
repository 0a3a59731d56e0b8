/**
 How TCP sockets share the I/O channels of a process: `reserve_channel` picks a channel with
 room, `reserve_subchannel` scans its flags from index zero and takes the first free one.
 The steps of any number of sockets interleave; only the channel maps are under a lock.
 */
module NetSubchannels {
  import opened Counting

  datatype Channel = Channel(reservations: int, inUse: seq<bool>)

  /** The life of one socket (or of the call that is creating it). */
  datatype Pc =
    | Idle
    | Scanning(ch: nat, idx: nat)  // about to swap flag `idx`; at idx == n the scan panics
    | Holding(ch: nat, idx: nat)
    | Leaving(ch: nat)             // subchannel released, channel not yet
    | Listening(ch: nat)           // a listener reserves a channel but no subchannel

  /** `open` and `full` are the key sets of the maps `channels` and `full_channels`. */
  datatype State = State(
    n: nat,
    channels: map<nat, Channel>,
    open: set<nat>,
    full: set<nat>,
    sockets: map<nat, Pc>)

  datatype Event =
    | Reserve(k: nat, ch: nat, stream: bool)
    | Scan(k: nat)
    | ReleaseSubchannel(k: nat)
    | ReleaseChannel(k: nat)

  function NewChannel(n: nat): Channel {
    Channel(1, seq(n, _ => false))
  }

  ghost predicate Init(s: State) {
    && s.channels == map[] && s.open == {} && s.full == {}
    && forall k | k in s.sockets :: s.sockets[k] == Idle
  }

  /** reserve_channel: the first channel with room, or a new channel `ch`. */
  ghost predicate ReserveChannel(s: State, ch: nat, s': State) {
    if s.open != {} then
      && ch in s.open && (forall d | d in s.open :: ch <= d) && ch in s.channels
      && var c := s.channels[ch].(reservations := s.channels[ch].reservations + 1);
      && s'.channels == s.channels[ch := c]
      && if c.reservations == s.n
         then s'.open == s.open - {ch} && s'.full == s.full + {ch}
         else s'.open == s.open && s'.full == s.full
    else
      && ch !in s.channels
      && s'.channels == s.channels[ch := NewChannel(s.n)] && s'.open == {ch} && s'.full == s.full
  }

  function Start(ch: nat, stream: bool): Pc {
    if stream then Scanning(ch, 0) else Listening(ch)
  }

  /** One round of the loop in reserve_subchannel. */
  ghost predicate ScanFlag(s: State, k: nat, s': State) {
    && k in s.sockets && s.sockets[k].Scanning?
    && var Scanning(ch, idx) := s.sockets[k];
    && ch in s.channels && idx < s.n && |s.channels[ch].inUse| == s.n
    && var c := s.channels[ch];
    && s'.open == s.open && s'.full == s.full
    && s'.channels == s.channels[ch := c.(inUse := c.inUse[idx := true])]
    && s'.sockets == s.sockets[k := if c.inUse[idx] then Scanning(ch, idx + 1) else Holding(ch, idx)]
  }

  ghost predicate ReleaseFlag(s: State, k: nat, s': State) {
    && k in s.sockets && s.sockets[k].Holding?
    && var Holding(ch, idx) := s.sockets[k];
    && ch in s.channels && idx < |s.channels[ch].inUse|
    && var c := s.channels[ch];
    && s'.open == s.open && s'.full == s.full
    && s'.channels == s.channels[ch := c.(inUse := c.inUse[idx := false])]
    && s'.sockets == s.sockets[k := Leaving(ch)]
  }

  ghost predicate LeaveChannel(s: State, k: nat, s': State) {
    && k in s.sockets && (s.sockets[k].Leaving? || s.sockets[k].Listening?)
    && var ch := s.sockets[k].ch;
    && ch in s.channels
    && s'.channels == s.channels[ch := s.channels[ch].(reservations := s.channels[ch].reservations - 1)]
    && (if ch in s.full then s'.full == s.full - {ch} && s'.open == s.open + {ch}
        else s'.full == s.full && s'.open == s.open)
    && s'.sockets == s.sockets[k := Idle]
  }

  ghost predicate Step(s: State, e: Event, s': State) {
    && s'.n == s.n
    && match e
       case Reserve(k, ch, stream) =>
         && k in s.sockets && s.sockets[k] == Idle && ReserveChannel(s, ch, s')
         && s'.sockets == s.sockets[k := Start(ch, stream)]
       case Scan(k) => ScanFlag(s, k, s')
       case ReleaseSubchannel(k) => ReleaseFlag(s, k, s')
       case ReleaseChannel(k) => LeaveChannel(s, k, s')
  }

  ghost predicate Next(s: State, s': State) {
    exists e :: Step(s, e, s')
  }

  ghost predicate IsRun(run: seq<State>) {
    && |run| > 0 && Init(run[0])
    && forall i | 0 <= i < |run| - 1 :: Next(run[i], run[i + 1])
  }

  /** Some scan has run past the last flag: the panic in reserve_subchannel. */
  ghost predicate Panics(s: State) {
    exists k :: k in s.sockets && s.sockets[k].Scanning? && s.sockets[k].idx >= s.n
  }

  // ---------------------------------------------------------------------------------------
  // The invariant
  // ---------------------------------------------------------------------------------------

  ghost predicate On(pc: Pc, ch: nat) {
    !pc.Idle? && pc.ch == ch
  }

  /** Scanning at, or holding, an index of `ch` that is at least `h`. */
  ghost predicate AtLeast(pc: Pc, ch: nat, h: nat) {
    (pc.Scanning? || pc.Holding?) && pc.ch == ch && pc.idx >= h
  }

  ghost function Users(s: State, ch: nat): set<nat> {
    set k | k in s.sockets && On(s.sockets[k], ch)
  }

  ghost function High(s: State, ch: nat, h: nat): set<nat> {
    set k | k in s.sockets && AtLeast(s.sockets[k], ch, h)
  }

  ghost predicate FlagOk(s: State, ch: nat, i: nat)
    requires ch in s.channels && i < |s.channels[ch].inUse|
  {
    s.channels[ch].inUse[i] <==> exists k :: k in s.sockets && s.sockets[k] == Holding(ch, i)
  }

  /** `n - h` sockets at most compete for the indices from `h` up. */
  ghost predicate RoomAt(s: State, ch: nat, h: nat) {
    |High(s, ch, h)| + h <= s.n
  }

  ghost predicate ChannelOk(s: State, ch: nat)
    requires ch in s.channels
  {
    var c := s.channels[ch];
    && |c.inUse| == s.n
    && c.reservations == |Users(s, ch)| <= s.n
    && (ch in s.open <==> ch !in s.full) && (ch in s.full <==> c.reservations == s.n)
    && (forall i | 0 <= i < s.n :: FlagOk(s, ch, i))
    && (forall h: nat | h <= s.n :: RoomAt(s, ch, h))
  }

  ghost predicate Inv(s: State) {
    && s.open + s.full == s.channels.Keys
    && (forall ch | ch in s.channels :: ChannelOk(s, ch))
    && (forall k | k in s.sockets && !s.sockets[k].Idle? :: s.sockets[k].ch in s.channels)
    && (forall k | k in s.sockets && (s.sockets[k].Scanning? || s.sockets[k].Holding?) :: s.sockets[k].idx < s.n)
    && (forall k, l | k in s.sockets && l in s.sockets && k != l && s.sockets[k].Holding? ::
          s.sockets[k] != s.sockets[l])
  }

  lemma UsersAfter(s: State, k: nat, s': State, ch: nat)
    requires k in s.sockets && k in s'.sockets && s'.sockets == s.sockets[k := s'.sockets[k]]
    ensures |Users(s', ch)| ==
            |Users(s, ch)| + (if On(s'.sockets[k], ch) then 1 else 0) - (if On(s.sockets[k], ch) then 1 else 0)
  {
    var after := On(s'.sockets[k], ch);
    assert Users(s', ch) == if after then Users(s, ch) + {k} else Users(s, ch) - {k};
    PutSize(Users(s, ch), k, after);
  }

  lemma HighAfter(s: State, k: nat, s': State, ch: nat, h: nat)
    requires k in s.sockets && k in s'.sockets && s'.sockets == s.sockets[k := s'.sockets[k]]
    ensures |High(s', ch, h)| ==
            |High(s, ch, h)| + (if AtLeast(s'.sockets[k], ch, h) then 1 else 0)
                             - (if AtLeast(s.sockets[k], ch, h) then 1 else 0)
  {
    var after := AtLeast(s'.sockets[k], ch, h);
    assert High(s', ch, h) == if after then High(s, ch, h) + {k} else High(s, ch, h) - {k};
    PutSize(High(s, ch, h), k, after);
  }

  /** The heart of the matter: behind an occupied flag there is one competitor fewer for the rest. */
  lemma OccupiedLeavesRoom(s: State, k: nat)
    requires Inv(s) && k in s.sockets && s.sockets[k].Scanning?
    requires s.sockets[k].idx < s.n && s.channels[s.sockets[k].ch].inUse[s.sockets[k].idx]
    ensures var Scanning(ch, idx) := s.sockets[k];
            |High(s, ch, idx + 1)| + idx + 2 <= s.n
  {
    var Scanning(ch, idx) := s.sockets[k];
    assert ChannelOk(s, ch) && FlagOk(s, ch, idx) && RoomAt(s, ch, idx);
    var l :| l in s.sockets && s.sockets[l] == Holding(ch, idx);
    assert k in High(s, ch, idx) && l in High(s, ch, idx);
    SubsetSize(High(s, ch, idx + 1), High(s, ch, idx) - {k} - {l});
  }

  /** A socket's step on one channel does not disturb the others. */
  lemma OtherChannel(s: State, k: nat, s': State, d: nat)
    requires Inv(s) && s'.n == s.n && d in s.channels && d in s'.channels && s'.channels[d] == s.channels[d]
    requires d in s'.open <==> d in s.open
    requires d in s'.full <==> d in s.full
    requires k in s.sockets && k in s'.sockets && s'.sockets == s.sockets[k := s'.sockets[k]]
    requires !On(s.sockets[k], d) && !On(s'.sockets[k], d)
    ensures ChannelOk(s', d)
  {
    assert ChannelOk(s, d);
    UsersAfter(s, k, s', d);
    forall i | 0 <= i < s.n ensures FlagOk(s', d, i) {
      assert FlagOk(s, d, i);
      FlagFrame(s, k, s', d, i);
    }
    forall h: nat | h <= s.n ensures RoomAt(s', d, h) {
      assert RoomAt(s, d, h);
      HighAfter(s, k, s', d, h);
    }
  }

  /** Flag `i` of `d` is not touched and neither is its holder. */
  lemma FlagFrame(s: State, k: nat, s': State, d: nat, i: nat)
    requires d in s.channels && d in s'.channels && i < |s.channels[d].inUse| && FlagOk(s, d, i)
    requires i < |s'.channels[d].inUse| && s'.channels[d].inUse[i] == s.channels[d].inUse[i]
    requires k in s.sockets && k in s'.sockets && s'.sockets == s.sockets[k := s'.sockets[k]]
    requires s.sockets[k] != Holding(d, i) && s'.sockets[k] != Holding(d, i)
    ensures FlagOk(s', d, i)
  {
    if s.channels[d].inUse[i] {
      var l :| l in s.sockets && s.sockets[l] == Holding(d, i);
      assert l in s'.sockets && s'.sockets[l] == Holding(d, i);
    } else {
      forall l | l in s'.sockets ensures s'.sockets[l] != Holding(d, i) {
        if l != k { assert l in s.sockets; }
      }
    }
  }

  lemma ReserveInv(s: State, k: nat, ch: nat, stream: bool, s': State)
    requires s.n >= 2 && Inv(s) && Step(s, Reserve(k, ch, stream), s')
    ensures Inv(s')
  {
    forall d | d in s'.channels ensures ChannelOk(s', d) {
      if d != ch { OtherChannel(s, k, s', d); } else { ReserveChannelOk(s, k, ch, stream, s'); }
    }
  }

  lemma ReserveChannelOk(s: State, k: nat, ch: nat, stream: bool, s': State)
    requires s.n >= 2 && Inv(s) && Step(s, Reserve(k, ch, stream), s')
    ensures ch in s'.channels && ChannelOk(s', ch)
  {
    UsersAfter(s, k, s', ch);
    if ch in s.channels {
      assert ChannelOk(s, ch);
    } else {
      assert Users(s, ch) == {};
    }
    forall i | 0 <= i < s.n ensures FlagOk(s', ch, i) {
      if ch in s.channels { assert FlagOk(s, ch, i); FlagFrame(s, k, s', ch, i); }
    }
    forall h: nat | h <= s.n ensures RoomAt(s', ch, h) {
      HighAfter(s, k, s', ch, h);
      if h == 0 {
        SubsetSize(High(s', ch, 0), Users(s', ch));
      } else if ch in s.channels {
        assert RoomAt(s, ch, h);
      } else {
        assert High(s, ch, h) == {};
      }
    }
  }

  lemma ScanInv(s: State, k: nat, s': State)
    requires Inv(s) && Step(s, Scan(k), s')
    ensures Inv(s')
  {
    var Scanning(ch, idx) := s.sockets[k];
    ScanChannelOk(s, k, s');
    forall d | d in s'.channels && d != ch ensures ChannelOk(s', d) {
      OtherChannel(s, k, s', d);
    }
    if s'.sockets[k].Scanning? {
      assert RoomAt(s', ch, idx + 1) && k in High(s', ch, idx + 1);
    } else {
      assert ChannelOk(s, ch) && FlagOk(s, ch, idx);
    }
  }

  lemma ScanChannelOk(s: State, k: nat, s': State)
    requires Inv(s) && Step(s, Scan(k), s')
    ensures var ch := s.sockets[k].ch; ch in s'.channels && ChannelOk(s', ch) && RoomAt(s', ch, s.sockets[k].idx + 1)
  {
    var Scanning(ch, idx) := s.sockets[k];
    assert ChannelOk(s, ch) && FlagOk(s, ch, idx);
    UsersAfter(s, k, s', ch);
    forall i | 0 <= i < s.n ensures FlagOk(s', ch, i) {
      assert FlagOk(s, ch, i);
      if i != idx || s.channels[ch].inUse[i] {
        FlagFrame(s, k, s', ch, i);
      } else {
        assert s'.sockets[k] == Holding(ch, i);
      }
    }
    forall h: nat | h <= s.n ensures RoomAt(s', ch, h) {
      assert RoomAt(s, ch, h);
      HighAfter(s, k, s', ch, h);
      if s.channels[ch].inUse[idx] { OccupiedLeavesRoom(s, k); }
    }
  }

  lemma ReleaseFlagInv(s: State, k: nat, s': State)
    requires Inv(s) && Step(s, ReleaseSubchannel(k), s')
    ensures Inv(s')
  {
    var Holding(ch, idx) := s.sockets[k];
    assert ChannelOk(s, ch);
    forall d | d in s'.channels && d != ch ensures ChannelOk(s', d) {
      OtherChannel(s, k, s', d);
    }
    UsersAfter(s, k, s', ch);
    forall i | 0 <= i < s.n ensures FlagOk(s', ch, i) {
      assert FlagOk(s, ch, i);
      if i != idx { FlagFrame(s, k, s', ch, i); }
    }
    forall h: nat | h <= s.n ensures RoomAt(s', ch, h) {
      assert RoomAt(s, ch, h);
      HighAfter(s, k, s', ch, h);
    }
  }

  lemma LeaveInv(s: State, k: nat, s': State)
    requires Inv(s) && Step(s, ReleaseChannel(k), s')
    ensures Inv(s')
  {
    var ch := s.sockets[k].ch;
    assert ChannelOk(s, ch);
    forall d | d in s'.channels && d != ch ensures ChannelOk(s', d) {
      OtherChannel(s, k, s', d);
    }
    UsersAfter(s, k, s', ch);
    forall i | 0 <= i < s.n ensures FlagOk(s', ch, i) {
      assert FlagOk(s, ch, i);
      FlagFrame(s, k, s', ch, i);
    }
    forall h: nat | h <= s.n ensures RoomAt(s', ch, h) {
      assert RoomAt(s, ch, h);
      HighAfter(s, k, s', ch, h);
    }
  }

  lemma StepInv(s: State, e: Event, s': State)
    requires s.n >= 2 && Inv(s) && Step(s, e, s')
    ensures Inv(s')
  {
    match e
    case Reserve(k, ch, stream) => ReserveInv(s, k, ch, stream, s');
    case Scan(k) => ScanInv(s, k, s');
    case ReleaseSubchannel(k) => ReleaseFlagInv(s, k, s');
    case ReleaseChannel(k) => LeaveInv(s, k, s');
  }

  lemma {:induction false} RunInv(run: seq<State>, i: nat)
    requires IsRun(run) && run[0].n >= 2 && i < |run|
    ensures Inv(run[i]) && run[i].n == run[0].n
  {
    hide Inv;
    if i == 0 {
      InitInv(run[0]);
    } else {
      RunInv(run, i - 1);
      assert Next(run[i - 1], run[i - 1 + 1]);
      var e :| Step(run[i - 1], e, run[i]);
      StepInv(run[i - 1], e, run[i]);
    }
  }

  lemma InitInv(s: State)
    requires Init(s)
    ensures Inv(s)
  {
  }

  // ---------------------------------------------------------------------------------------
  // What the reservation promises
  // ---------------------------------------------------------------------------------------

  /**
   With two or more subchannels per channel, in every run: no scan reaches the panic, no index
   is held by two sockets, a held index has its flag set, so that the assertion in
   `release_subchannel` holds, and a channel never has more reservations than subchannels.
   */
  lemma ReservationSafety(run: seq<State>, i: nat)
    requires IsRun(run) && run[0].n >= 2 && i < |run|
    ensures !Panics(run[i])
    ensures var s := run[i];
            && (forall k, l | k in s.sockets && l in s.sockets && k != l && s.sockets[k].Holding? ::
                  s.sockets[k] != s.sockets[l])
            && (forall k | k in s.sockets && s.sockets[k].Holding? ::
                  var Holding(ch, idx) := s.sockets[k];
                  ch in s.channels && idx < |s.channels[ch].inUse| && s.channels[ch].inUse[idx])
            && (forall ch | ch in s.channels :: 0 <= s.channels[ch].reservations <= s.n)
  {
    RunInv(run, i);
    var s := run[i];
    forall k | k in s.sockets && s.sockets[k].Holding?
      ensures var Holding(ch, idx) := s.sockets[k];
              ch in s.channels && idx < |s.channels[ch].inUse| && s.channels[ch].inUse[idx]
    {
      var Holding(ch, idx) := s.sockets[k];
      assert ChannelOk(s, ch) && FlagOk(s, ch, idx);
    }
    forall ch | ch in s.channels ensures 0 <= s.channels[ch].reservations <= s.n {
      assert ChannelOk(s, ch);
    }
  }

  /** A scan takes a subchannel exactly when no socket holds it, and else goes on to the next. */
  lemma ScanTakesIff(s: State, k: nat, s': State)
    requires Inv(s) && Step(s, Scan(k), s')
    ensures var Scanning(ch, idx) := s.sockets[k];
            s'.sockets[k] == if exists l :: l in s.sockets && s.sockets[l] == Holding(ch, idx)
                             then Scanning(ch, idx + 1) else Holding(ch, idx)
  {
    var Scanning(ch, idx) := s.sockets[k];
    assert ChannelOk(s, ch) && FlagOk(s, ch, idx);
  }

  /**
   A socket is sent to a channel with a subchannel to spare, and to a new channel exactly when every
   channel has as many sockets as subchannels.
   */
  lemma ReserveOpensIff(s: State, k: nat, ch: nat, stream: bool, s': State)
    requires Inv(s) && Step(s, Reserve(k, ch, stream), s')
    ensures ch in s.channels ==> |Users(s, ch)| < s.n
    ensures ch !in s.channels <==> forall d | d in s.channels :: |Users(s, d)| == s.n
    ensures s'.sockets[k] == (if stream then Scanning(ch, 0) else Listening(ch)) && ch in s'.channels
  {
    if s.open == {} {
      forall d | d in s.channels ensures |Users(s, d)| == s.n { assert ChannelOk(s, d); }
    } else {
      assert ChannelOk(s, ch);
    }
  }

  /**
   No socket loses its place: it leaves a scan only for the index it was at, and gives up a subchannel
   and a channel only by its own release.
   */
  lemma SocketsMove(s: State, e: Event, s': State, k: nat)
    requires Step(s, e, s') && k in s.sockets
    ensures k in s'.sockets
    ensures s'.sockets[k] == s.sockets[k]
            || match s.sockets[k]
               case Idle => e.Reserve? && e.k == k && s'.sockets[k] == Start(e.ch, e.stream)
               case Scanning(ch, idx) => e == Scan(k) && s'.sockets[k] in {Scanning(ch, idx + 1), Holding(ch, idx)}
               case Holding(ch, _) => e == ReleaseSubchannel(k) && s'.sockets[k] == Leaving(ch)
               case Leaving(_) => e == ReleaseChannel(k) && s'.sockets[k] == Idle
               case Listening(_) => e == ReleaseChannel(k) && s'.sockets[k] == Idle
  {
  }

  /** One subchannel: the new channel is not marked full, so a second socket is sent to it. */
  function OneSubchannelRun(): seq<State> {
    [ State(1, map[], {}, {}, map[0 := Idle, 1 := Idle]),
      State(1, map[7 := Channel(1, [false])], {7}, {}, map[0 := Scanning(7, 0), 1 := Idle]),
      State(1, map[7 := Channel(1, [true])], {7}, {}, map[0 := Holding(7, 0), 1 := Idle]),
      State(1, map[7 := Channel(2, [true])], {7}, {}, map[0 := Holding(7, 0), 1 := Scanning(7, 0)]),
      State(1, map[7 := Channel(2, [true])], {7}, {}, map[0 := Holding(7, 0), 1 := Scanning(7, 1)]) ]
  }

  function NoSubchannelRun(): seq<State> {
    [ State(0, map[], {}, {}, map[0 := Idle]),
      State(0, map[7 := Channel(1, [])], {7}, {}, map[0 := Scanning(7, 0)]) ]
  }

  lemma OneSubchannelPanics()
    ensures IsRun(OneSubchannelRun()) && Panics(OneSubchannelRun()[4])
  {
    var run := OneSubchannelRun();
    assert NewChannel(1).inUse == [false];
    assert [false][0 := true] == [true] && [true][0 := true] == [true];
    assert Step(run[0], Reserve(0, 7, true), run[1]);
    assert Step(run[1], Scan(0), run[2]);
    assert Step(run[2], Reserve(1, 7, true), run[3]);
    assert Step(run[3], Scan(1), run[4]);
    assert run[4].sockets[1].Scanning?;
  }

  lemma NoSubchannelPanics()
    ensures IsRun(NoSubchannelRun()) && Panics(NoSubchannelRun()[1])
  {
    var run := NoSubchannelRun();
    assert NewChannel(0).inUse == [];
    assert Step(run[0], Reserve(0, 7, true), run[1]);
    assert run[1].sockets[0].Scanning?;
  }

  /** No run of channels with `n` subchannels panics. */
  ghost predicate NeverPanics(n: nat) {
    forall run: seq<State>, i: nat | IsRun(run) && run[0].n == n && i < |run| :: !Panics(run[i])
  }

  /** The scan is safe exactly when a channel has at least two subchannels; the source has eight. */
  lemma NeverPanicsIff(n: nat)
    ensures NeverPanics(n) <==> n >= 2
  {
    if n >= 2 {
      forall run: seq<State>, i: nat | IsRun(run) && run[0].n == n && i < |run| ensures !Panics(run[i]) {
        ReservationSafety(run, i);
      }
    } else if n == 1 {
      OneSubchannelPanics();
      assert Panics(OneSubchannelRun()[4]);
    } else {
      NoSubchannelPanics();
      assert Panics(NoSubchannelRun()[1]);
    }
  }
}
