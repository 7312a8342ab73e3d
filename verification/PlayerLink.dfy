/**
 Main's messages to the player over a pair of imsgbufs that pass descriptors: when
 the player meets a PLAY that has lost its descriptor.
 */
module PlayerLink {
  import opened Common
  import opened ImsgReader
  import opened ImsgFormat
  import C = ImsgChannel
  import D = ImsgDescriptors
  import opened ImsgMessages
  import opened ImsgWire
  import opened Imsgbufs
  import S = System
  import P = Player
  import A = Daemon

  const IMSG_PLAY: u32 := 0
  const IMSG_RESUME: u32 := 1
  const IMSG_PAUSE: u32 := 2
  const IMSG_STOP: u32 := 3
  const IMSG_CTL_SEEK: u32 := 18

  function CmdOf(kind: u32): A.Cmd {
    if kind == IMSG_PLAY then A.Play
    else if kind == IMSG_RESUME then A.Resume
    else if kind == IMSG_PAUSE then A.Pause
    else if kind == IMSG_STOP then A.Stop
    else A.Seek
  }

  /** The type of the message main sends for a command. */
  function KindOf(cmd: A.Cmd): (kind: u32)
    ensures CmdOf(kind) == cmd
  {
    match cmd
    case Play => IMSG_PLAY
    case Resume => IMSG_RESUME
    case Pause => IMSG_PAUSE
    case Stop => IMSG_STOP
    case Seek => IMSG_CTL_SEEK
  }

  /** main_send_player: a PLAY comes with the descriptor of an open file, the other messages come without. */
  predicate FromMain(call: Call) {
    && call.kind in {IMSG_PLAY, IMSG_RESUME, IMSG_PAUSE, IMSG_STOP, IMSG_CTL_SEEK}
    && (call.kind == IMSG_PLAY <==> 0 <= call.fd)
  }

  ghost predicate AllFromMain(steps: seq<Step>) {
    forall i :: 0 <= i < |steps| && steps[i].Compose? ==> FromMain(steps[i].call)
  }

  /** What the player makes of messages: each PLAY is the next track. */
  function Heard(track: nat, items: seq<Item>): seq<S.ToPlayer>
    decreases |items|
  {
    if items == [] then []
    else if items[0].msg.kind == IMSG_PLAY then [S.StartTrack(track + 1)] + Heard(track + 1, items[1..])
    else [S.Other(CmdOf(items[0].msg.kind))] + Heard(track, items[1..])
  }

  function Cmds(items: seq<Item>): seq<A.Cmd> {
    if items == [] then [] else [CmdOf(items[0].msg.kind)] + Cmds(items[1..])
  }

  /** It is main's numbering of the commands it sent. */
  lemma {:induction false} HeardIsNumbered(track: nat, items: seq<Item>)
    ensures Heard(track, items) == S.Number(track, Cmds(items)).0
    decreases |items|
  {
    if items != [] {
      HeardIsNumbered(if items[0].msg.kind == IMSG_PLAY then track + 1 else track, items[1..]);
      assert Cmds(items)[1..] == Cmds(items[1..]);
    }
  }

  /** The messages main sends for commands are heard as those commands, with the PLAYs numbered. */
  lemma {:induction false} CommandsComeBack(items: seq<Item>, cmds: seq<A.Cmd>)
    requires |items| == |cmds| && forall i :: 0 <= i < |cmds| ==> items[i].msg.kind == KindOf(cmds[i])
    ensures Cmds(items) == cmds && Heard(0, items) == S.Number(0, cmds).0
  {
    CmdsAre(items, cmds);
    HeardIsNumbered(0, items);
  }

  lemma {:induction false} CmdsAre(items: seq<Item>, cmds: seq<A.Cmd>)
    requires |items| == |cmds| && forall i :: 0 <= i < |cmds| ==> items[i].msg.kind == KindOf(cmds[i])
    ensures Cmds(items) == cmds
  {
    if cmds != [] {
      assert forall i :: 0 <= i < |cmds| - 1 ==> items[1..][i] == items[i + 1] && cmds[1..][i] == cmds[i + 1];
      CmdsAre(items[1..], cmds[1..]);
      assert [cmds[0]] + cmds[1..] == cmds;
    }
  }

  /** The tracks whose PLAY has no descriptor. */
  function LostTracks(track: nat, items: seq<Item>): set<nat>
    decreases |items|
  {
    if items == [] then {}
    else if items[0].msg.kind == IMSG_PLAY then
      (if items[0].fd == NO_FD then {track + 1} else {}) + LostTracks(track + 1, items[1..])
    else LostTracks(track, items[1..])
  }

  ghost predicate SomePlayWithout(items: seq<Item>) {
    exists i :: 0 <= i < |items| && items[i].msg.kind == IMSG_PLAY && items[i].fd == NO_FD
  }

  lemma {:induction false} LostIff(track: nat, items: seq<Item>)
    ensures LostTracks(track, items) != {} <==> SomePlayWithout(items)
    ensures forall t :: t in LostTracks(track, items) ==> S.StartTrack(t) in Heard(track, items)
    decreases |items|
  {
    if items != [] {
      var tail := items[1..];
      assert forall i :: 0 < i < |items| ==> items[i] == tail[i - 1];
      LostIff(if items[0].msg.kind == IMSG_PLAY then track + 1 else track, tail);
      if SomePlayWithout(tail) {
        var i :| 0 <= i < |tail| && tail[i].msg.kind == IMSG_PLAY && tail[i].fd == NO_FD;
        assert items[i + 1] == tail[i];
      }
    }
  }

  /** Exactly the PLAYs among the messages composed have descriptors. */
  lemma {:induction false} PlaysHaveFds(f: Format, ownPid: u32, steps: seq<Step>)
    requires AllFromMain(steps)
    ensures forall i :: 0 <= i < |Composed(f, ownPid, steps)| ==>
              (Composed(f, ownPid, steps)[i].fd != NO_FD <==> Composed(f, ownPid, steps)[i].msg.kind == IMSG_PLAY)
  {
    if steps != [] {
      assert forall i :: 0 <= i < |steps| - 1 ==> steps[1..][i] == steps[i + 1];
      PlaysHaveFds(f, ownPid, steps[1..]);
    }
  }

  lemma {:induction false} LacksIsPlayWithout(got: seq<Item>, composed: seq<Item>)
    requires |got| == |composed| && forall i :: 0 <= i < |got| ==> got[i].msg == composed[i].msg
    requires forall i :: 0 <= i < |composed| ==> (composed[i].fd != NO_FD <==> composed[i].msg.kind == IMSG_PLAY)
    ensures Lacks(got, composed) <==> SomePlayWithout(got)
  {
    if Lacks(got, composed) {
      var i :| 0 <= i < |composed| && composed[i].fd != NO_FD && got[i].fd == NO_FD;
      assert got[i].msg.kind == IMSG_PLAY;
    }
    if SomePlayWithout(got) {
      var i :| 0 <= i < |got| && got[i].msg.kind == IMSG_PLAY && got[i].fd == NO_FD;
      assert composed[i].fd != NO_FD;
    }
  }

  /** A read of the link cut the header of a PLAY or left its descriptor behind. */
  ghost predicate LinkLost(l: Link)
    requires l.Valid()
    reads l, l.sender, l.sender.bufs, l.receiver, l.receiver.rbuf, l.receiver.rbufs, l.receiver.rpmsg
  {
    C.InvEmpty(ImsgConf(l.sender.format));
    !D.LossFree(ImsgConf(l.sender.format), C.EMPTY, LowerAll(l.sender.format, l.sender.ownPid, l.steps))
  }

  /** A PLAY has come without its descriptor exactly when a read lost one. */
  lemma {:induction false} PlayLostIff(l: Link)
    requires l.Valid() && Drained(l) && AllFromMain(l.steps)
    ensures LostTracks(0, l.got) != {} <==> LinkLost(l)
    ensures Heard(0, l.got) == S.Number(0, Cmds(Composed(l.sender.format, l.sender.ownPid, l.steps))).0
  {
    var composed := Composed(l.sender.format, l.sender.ownPid, l.steps);
    LinkDelivers(l);
    PlaysHaveFds(l.sender.format, l.sender.ownPid, l.steps);
    LacksIsPlayWithout(l.got, composed);
    LostIff(0, l.got);
    SameCmds(l.got, composed);
    HeardIsNumbered(0, l.got);
  }

  lemma {:induction false} SameCmds(a: seq<Item>, b: seq<Item>)
    requires |a| == |b| && forall i :: 0 <= i < |a| ==> a[i].msg == b[i].msg
    ensures Cmds(a) == Cmds(b)
  {
    if a != [] {
      assert forall i :: 0 <= i < |a| - 1 ==> a[1..][i] == a[i + 1] && b[1..][i] == b[i + 1];
      SameCmds(a[1..], b[1..]);
    }
  }

  /**
   A player object that takes what came over such a link: it ends with the error
   about the descriptor only if a read cut the header of a PLAY or left its descriptor
   behind, and if one did it never gets through all messages.
   */
  lemma {:induction false} PlayerMeetsLoss(l: Link, p: P.Player)
    requires l.Valid() && Drained(l) && AllFromMain(l.steps)
    requires p.Valid() && p.script == Heard(0, l.got) && p.lost == LostTracks(0, l.got)
    ensures p.life == P.NoDescriptor ==> LinkLost(l)
    ensures LinkLost(l) ==> p.queue + Flatten(p.wire) != []
  {
    PlayLostIff(l);
    LostIff(0, l.got);
    assert forall t :: t in p.lost ==> S.StartTrack(t) in p.script;
    if p.queue + Flatten(p.wire) == [] {
      AllTaken(p);
    }
  }

  /** A player that has got through everything has met no such track. */
  lemma {:induction false} AllTaken(p: P.Player)
    requires p.Valid() && p.queue + Flatten(p.wire) == []
    ensures forall t :: S.StartTrack(t) in p.script ==> t !in p.lost
  {
    var taken := P.Taken(p.acts);
    AppendAssoc(taken, p.queue, Flatten(p.wire));
    assert taken + [] == taken;
    forall t | S.StartTrack(t) in p.script ensures t !in p.lost {
      var i :| 0 <= i < |p.script| && p.script[i] == S.StartTrack(t);
      assert taken[i].StartTrack?;
    }
  }
}
