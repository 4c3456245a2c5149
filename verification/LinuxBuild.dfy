/** What the Linux handler does with messages that need more than one frame (cmd/wallera-linux/main.go). */
module LinuxBuild {
  import opened Bytes
  import opened Frames
  import opened Transport
  import opened Response
  import opened Rx
  import opened MessageLoop
  import opened Duplex

  /**
    * Once a frame opens a message that needs more than one, no input ever completes it: the session
    * stays, the application is never called, and each report is answered by one refusal.
    */
  lemma {:induction false} LinuxNeverFinishes<A>(handle: Handle<A>, st: RxState<A>, f0: seq<byte>, bufs: seq<seq<byte>>)
    requires st.session.None? && !st.faulted
    requires Accepts(FRESH, f0) && Length(f0) > INIT_DATA
    ensures var st' := RunLinux(handle, st, [f0] + bufs);
      && st'.session.Some? && st'.session.value.channelID == Channel(f0)
      && st'.app == st.app && !st'.faulted
      && st'.outbound == st.outbound + Repeat(Refusal(Channel(f0))[0], |bufs|)
  {
    var all := [f0] + bufs;
    if bufs == [] {
      assert all[..0] == [];
      assert RunLinux(handle, st, all[..0]) == st;
      assert st.outbound + Repeat(Refusal(Channel(f0))[0], 0) == st.outbound;
    } else {
      var n := |bufs| - 1;
      LinuxNeverFinishes(handle, st, f0, bufs[..n]);
      assert all[..|all| - 1] == [f0] + bufs[..n];
      LinuxRefuses(handle, RunLinux(handle, st, [f0] + bufs[..n]), bufs[n]);
      RefusalSnoc(st.outbound, Channel(f0), n);
    }
  }

  lemma LinuxRefuses<A>(handle: Handle<A>, st: RxState<A>, buf: seq<byte>)
    requires st.session.Some? && Open(st.session.value) && !st.faulted
    ensures var st', channel := LinuxRx(handle, st, buf), st.session.value.channelID;
      && st'.session.Some? && st'.session.value.channelID == channel
      && st'.app == st.app && !st'.faulted
      && st'.outbound == st.outbound + Refusal(channel)
  {
  }

  /** The Linux build treats a framed message as the firmware does exactly when it fits one frame. */
  lemma LinuxServesIff<A>(handle: Handle<A>, app: A, r: Reply)
    requires Sendable(r)
    ensures (RunLinux(handle, Idle([], app), ResponseFrames(r.channel, r.data)) ==
             Run(handle, Idle([], app), ResponseFrames(r.channel, r.data))) <==> |r.data| <= INIT_DATA
  {
    if |r.data| <= INIT_DATA {
      LinuxServesShort(handle, app, r);
    } else {
      LinuxFailsLong(handle, app, r);
      FirmwareFinishes(handle, app, r);
    }
  }

  lemma LinuxServesShort<A>(handle: Handle<A>, app: A, r: Reply)
    requires Sendable(r) && |r.data| <= INIT_DATA
    ensures RunLinux(handle, Idle([], app), ResponseFrames(r.channel, r.data)) ==
            Run(handle, Idle([], app), ResponseFrames(r.channel, r.data))
  {
    var frames := ResponseFrames(r.channel, r.data);
    ResponseFields(r.channel, r.data, 0);
    assert forall buf :: buf in frames ==> buf == frames[0];
    HandlersAgreeOnSingleFrames(handle, Idle([], app), frames);
  }

  lemma LinuxFailsLong<A>(handle: Handle<A>, app: A, r: Reply)
    requires Sendable(r) && |r.data| > INIT_DATA
    ensures var st := RunLinux(handle, Idle([], app), ResponseFrames(r.channel, r.data)); st.session.Some? && !st.faulted
  {
    var frames := ResponseFrames(r.channel, r.data);
    ResponseFields(r.channel, r.data, 0);
    assert frames == [frames[0]] + frames[1..];
    LinuxNeverFinishes(handle, Idle([], app), frames[0], frames[1..]);
  }

  lemma FirmwareFinishes<A>(handle: Handle<A>, app: A, r: Reply)
    requires Sendable(r)
    ensures var st := Run(handle, Idle([], app), ResponseFrames(r.channel, r.data)); st.session.None? || st.faulted
  {
    QuietIsFrames(r);
    TransmissionIsExchange(handle, Idle([], app), Quiet(r));
  }
}
