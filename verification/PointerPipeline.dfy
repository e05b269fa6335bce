/** `PointerStrokePipeline` as an object over a `DrawingSession`
    (apps/client/src/drawing/pointerPipeline.ts:87-245). The local sink is the
    log of its calls; the ids it hands out and the answers of `canSend` are
    parameters. */
module PointerPipeline {
  import opened Wrappers
  import M = DrawingModel
  import S = DrawingSession
  import P = PipelineModel
  import opened DrawingOrder
  import opened DrawingStrokes

  class PointerStrokePipeline {
    var activeId: Option<string>
    var activePointer: Option<int>
    var networked: bool
    var local: seq<P.LocalCall>
    const network: S.DrawingSession
    ghost var points: map<nat, seq<M.Position>>

    ghost function Abs(): P.Pipe
      reads this, network
    {
      P.Pipe(activeId, activePointer, networked, local, points, network.Abs())
    }

    ghost predicate Valid()
      reads this, network
    {
      network.Valid() && P.PipeInv(Abs())
    }

    constructor (network: S.DrawingSession)
      requires network.Valid() && network.Abs() == M.Fresh
      ensures Valid() && this.network == network && Abs() == P.Fresh
    {
      this.network := network;
      activeId, activePointer, networked, local, points := None, None, false, [], map[];
      new;
      P.FreshPipe();
    }

    method Finish(sendEnd: bool, now: real, endTs: real)
      requires Valid()
      modifies this, network
      ensures Valid() && Abs() == P.Finish(old(Abs()), sendEnd, now, endTs)
    {
      hide P.PipeInv, QueueInv, StrokeInv, M.EndStroke, M.CancelStroke;
      P.FinishKeeps(Abs(), sendEnd, now, endTs);
      if activeId.None? {
        return;
      }
      var wasNetworked := networked;
      activeId := None;
      activePointer := None;
      networked := false;
      local := local + [P.LocalEnd];
      if wasNetworked {
        if sendEnd {
          network.EndStroke(now, endTs);
        } else {
          network.CancelStroke();
        }
      }
    }

    /** `id` is what the local sink's `beginStroke` returns; `allowed` is false
        also when `canSend` throws. */
    method Down(style: M.Style, sample: P.Sample, id: string, allowed: bool, now: real, endTs: real)
      requires Valid()
      modifies this, network
      ensures Valid() && Abs() == P.Down(old(Abs()), style, sample, id, allowed, now, endTs)
    {
      hide P.PipeInv, QueueInv, StrokeInv, M.BeginStroke, M.EndStroke, M.CancelStroke;
      P.DownKeeps(Abs(), style, sample, id, allowed, now, endTs);
      if !P.IsFinite(sample) {
        return;
      }
      if activeId.Some? {
        Finish(true, now, endTs);
      }
      var at := P.At(sample);
      ghost var before := local;
      activeId := Some(id);
      activePointer := sample.pointerId;
      local := local + [P.LocalBegin(id, style)];
      local := local + [P.LocalPoint(at)];
      assert local == before + [P.LocalBegin(id, style), P.LocalPoint(at)];
      networked := false;
      if !allowed {
        return;
      }
      networked := true;
      network.BeginStroke(id, style, at, now, endTs);
      points := if network.active.Some? then points[network.active.value.no := [at]] else points;
    }

    method Move(sample: P.Sample)
      requires Valid()
      modifies this, network
      ensures Valid() && Abs() == P.Move(old(Abs()), sample)
    {
      hide P.PipeInv, QueueInv, StrokeInv;
      P.MoveKeeps(Abs(), sample);
      if activeId.None? || !IsActivePointer(sample) || !P.IsFinite(sample) {
        return;
      }
      var at := P.At(sample);
      local := local + [P.LocalPoint(at)];
      if networked {
        points := if network.active.Some? && network.active.value.no in points
                  then points[network.active.value.no := points[network.active.value.no] + [at]]
                  else points;
        network.AppendPoint(at);
      }
    }

    method Up(sample: P.Sample, now: real, endTs: real)
      requires Valid()
      modifies this, network
      ensures Valid() && Abs() == P.Up(old(Abs()), sample, now, endTs)
    {
      if activeId.None? || !IsActivePointer(sample) {
        return;
      }
      Move(sample);
      Finish(true, now, endTs);
    }

    method Cancel(sample: Option<P.Sample>, now: real, endTs: real)
      requires Valid()
      modifies this, network
      ensures Valid() && Abs() == P.Cancel(old(Abs()), sample, now, endTs)
    {
      if activeId.None? || (sample.Some? && !IsActivePointer(sample.value)) {
        return;
      }
      Finish(true, now, endTs);
    }

    predicate IsActivePointer(sample: P.Sample)
      reads this
    {
      activePointer.None? || sample.pointerId.None? || sample.pointerId == activePointer
    }
  }
}
