/**
 The reconcilers of the image pipeline as they run: loops over pods, results and images that edit
 lists in place and call the API server, proved equal to the passes of `ImagePipeline`.
 */
module ImageReconcilers {
  import opened Basics
  import opened KernelNames
  import opened ImagePipeline
  import ImageRuns

  // ----- Where the search loops stop -----

  lemma {:induction false} SetStateAt(states: seq<StateEntry>, image: string, state: ImageState, i: nat)
    requires i <= |states| && (forall j :: 0 <= j < i ==> states[j].image != image)
    requires i < |states| ==> states[i].image == image
    ensures var e := StateEntry(image, state);
            SetState(states, image, state) == if i < |states| then states[i := e] else states + [e]
  {
    if i > 0 {
      SetStateAt(states[1..], image, state, i - 1);
      assert SetState(states, image, state) == [states[0]] + SetState(states[1..], image, state);
      assert states == [states[0]] + states[1..];
    }
  }

  lemma {:induction false} SetResultAt(results: seq<ResultEntry>, e: ResultEntry, i: nat)
    requires i <= |results| && (forall j :: 0 <= j < i ==> results[j].image != e.image)
    requires i < |results| ==> results[i].image == e.image
    ensures SetResult(results, e) == if i < |results| then results[i := e] else results + [e]
  {
    if i > 0 {
      SetResultAt(results[1..], e, i - 1);
      assert SetResult(results, e) == [results[0]] + SetResult(results[1..], e);
      assert results == [results[0]] + results[1..];
    }
  }

  lemma {:induction false} SetTaskAt(tasks: seq<Task>, t: Task, i: nat)
    requires i <= |tasks| && (forall j :: 0 <= j < i ==> tasks[j].spec.image != t.spec.image)
    requires i < |tasks| ==> tasks[i].spec.image == t.spec.image
    ensures SetTask(tasks, t) == if i < |tasks| then tasks[i := t] else tasks + [t]
  {
    if i > 0 {
      SetTaskAt(tasks[1..], t, i - 1);
      assert SetTask(tasks, t) == [tasks[0]] + SetTask(tasks[1..], t);
      assert tasks == [tasks[0]] + tasks[1..];
    }
  }

  lemma {:induction false} PodsLeftAppend(images: seq<ImageSpec>, pods: seq<PullPod>, pod: PullPod, refused: set<nat>)
    ensures PodsLeft(images, pods + [pod], refused) ==
            PodsLeft(images, pods, refused) + if IsDone(images, pod) && pod.uid !in refused then [] else [pod]
  {
    if pods == [] {
      assert pods + [pod] == [pod];
    } else {
      assert (pods + [pod])[1..] == pods[1..] + [pod];
      PodsLeftAppend(images, pods[1..], pod, refused);
    }
  }

  /** One spec per image, each the first one the list has for its image. */
  ghost predicate IsFiltered(filtered: seq<ImageSpec>, images: seq<ImageSpec>) {
    && (forall i, j :: 0 <= i < j < |filtered| ==> filtered[i].image != filtered[j].image)
    && (forall image :: SpecOf(filtered, image) == SpecOf(images, image))
  }

  method FilterDuplicateImages(images: seq<ImageSpec>) returns (filtered: seq<ImageSpec>)
    ensures IsFiltered(filtered, images)
  {
    filtered := [];
    var seen: set<string> := {};
    for i := 0 to |images|
      invariant forall image :: image in seen <==> SpecOf(filtered, image).Some?
      invariant IsFiltered(filtered, images[..i])
    {
      var spec := images[i];
      assert images[..i + 1] == images[..i] + [spec];
      FilterStep(filtered, images[..i], spec);
      SpecOfAppend(filtered, spec);
      if spec.image !in seen {
        seen := seen + {spec.image};
        filtered := filtered + [spec];
      }
    }
    assert images[..|images|] == images;
  }

  lemma FilterStep(filtered: seq<ImageSpec>, images: seq<ImageSpec>, spec: ImageSpec)
    requires IsFiltered(filtered, images)
    ensures IsFiltered(if SpecOf(filtered, spec.image).None? then filtered + [spec] else filtered, images + [spec])
  {
    var filtered' := if SpecOf(filtered, spec.image).None? then filtered + [spec] else filtered;
    SpecOfAppend(images, spec);
    SpecOfAppend(filtered, spec);
    forall image
      ensures SpecOf(filtered', image) == SpecOf(images + [spec], image)
    {
      assert SpecOf(filtered, image) == SpecOf(images, image);
    }
    forall i, j | 0 <= i < j < |filtered'|
      ensures filtered'[i].image != filtered'[j].image
    {
      assert j == |filtered| ==> filtered[i] in filtered && filtered'[j] == spec;
    }
  }

  lemma {:induction false} SpecOfAppend(images: seq<ImageSpec>, spec: ImageSpec)
    ensures forall image :: SpecOf(images + [spec], image) ==
              if SpecOf(images, image).Some? then SpecOf(images, image) else if spec.image == image then Some(spec) else None
  {
    if images == [] {
      assert images + [spec] == [spec];
    } else {
      assert (images + [spec])[1..] == images[1..] + [spec];
      SpecOfAppend(images[1..], spec);
    }
  }

  /** Filtering leaves one spec per image, and separate images when no two different images share a DNS-safe kernel. */
  lemma FilteredIsSeparate(filtered: seq<ImageSpec>, images: seq<ImageSpec>)
    requires IsFiltered(filtered, images)
    ensures ImageRuns.OneSpecEach(filtered)
    ensures (forall s, t :: s in images && t in images && DnsSafe(s.kernel) == DnsSafe(t.kernel) ==> s.image == t.image) ==>
              ImageRuns.ImagesSeparate(filtered)
  {
    forall s, t | s in filtered && t in filtered
      ensures s in images && t in images && (s.image == t.image ==> s == t)
    {
      FilteredComesFrom(filtered, images, s);
      FilteredComesFrom(filtered, images, t);
    }
  }

  lemma FilteredComesFrom(filtered: seq<ImageSpec>, images: seq<ImageSpec>, s: ImageSpec)
    requires IsFiltered(filtered, images) && s in filtered
    ensures s in images && SpecOf(images, s.image) == Some(s)
  {
    var i :| 0 <= i < |filtered| && filtered[i] == s;
    SpecOfIsFirst(filtered, s.image, i);
  }

  class MicReconciler {
    var mic: Mic
    var mbsc: Option<Mbsc>
    var pullPods: seq<PullPod>
    var pods: map<PodName, BuildPod>
    var nextUid: nat
    ghost var log: History

    ghost function View(): World
      reads this
    {
      World(mic, mbsc, pullPods, pods, nextUid, log)
    }

    /** The Module reconciler writes the image list, without duplicates, and the trigger in one call. */
    method CreateOrPatch(images: seq<ImageSpec>, trigger: Option<int>)
      modifies this`mic
      ensures IsFiltered(mic.images, images)
      ensures View() == Next(Next(old(View()), SetImages(mic.images)), SetTrigger(trigger))
    {
      var filtered := FilterDuplicateImages(images);
      mic := mic.(images := filtered, trigger := trigger);
    }

    method SetImageStatus(image: string, state: ImageState)
      modifies this`mic
      ensures mic == old(mic).(states := SetState(old(mic.states), image, state))
    {
      var i := 0;
      while i < |mic.states| && mic.states[i].image != image
        invariant i <= |mic.states| && mic == old(mic)
        invariant forall j :: 0 <= j < i ==> mic.states[j].image != image
      {
        i := i + 1;
      }
      SetStateAt(mic.states, image, state, i);
      var e := StateEntry(image, state);
      mic := mic.(states := if i < |mic.states| then mic.states[i := e] else mic.states + [e]);
    }

    method HandleImageRebuildTriggerGeneration(f: MicFaults) returns (changed: bool, failed: bool)
      modifies this`mic, this`mbsc, this`log
      ensures if mic.trigger == old(mic.adopted) then !changed && !failed && View() == old(View())
              else View() == Adopt(old(View()), f) && (changed <==> !failed)
    {
      if mic.trigger == mic.adopted {
        return false, false;
      }
      if f.mbscDelete {
        return false, true;
      }
      mbsc := None;
      if f.adoptPatch {
        return false, true;
      }
      mic := mic.(states := [], adopted := mic.trigger);
      log := log.(adoptions := log.adoptions + 1);
      return true, false;
    }

    /** One pull pod: its effect on the status, and whether it can go. */
    method UpdateStatusByPullPod(pod: PullPod) returns (done: bool)
      modifies this`mic
      ensures mic == old(mic).(states := PullPodStep(old(mic.images), pod, old(mic.states)))
      ensures done == IsDone(old(mic.images), pod)
    {
      var spec := SpecOf(mic.images, pod.image);
      if spec.None? {
        return true;
      }
      done := false;
      match GetPullPodStatus(pod) {
        case PullFailed =>
          if spec.value.build {
            SetImageStatus(pod.image, NeedsBuilding);
          } else if spec.value.sign.Some? {
            SetImageStatus(pod.image, NeedsSigning);
          } else if spec.value.skipWait {
            SetImageStatus(pod.image, DoesNotExist);
          }
          done := true;
        case PullSuccess =>
          SetImageStatus(pod.image, Exists);
          done := true;
        case _ =>
      }
    }

    /** Edits a copy of the status, patches it, and only then deletes the pods it was computed from. */
    method UpdateStatusByPullPods(f: MicFaults) returns (failed: bool)
      modifies this`mic, this`pullPods
      ensures View() == AfterPulls(old(View()), f)
      ensures failed <==> PullsFail(old(View()), f)
    {
      var listed := pullPods;
      if listed == [] {
        return false;
      }
      var server := mic;
      var toDelete: set<int> := {};
      for i := 0 to |listed|
        invariant pullPods == listed == old(pullPods) && mic == server.(states := mic.states)
        invariant PulledStates(server.images, listed[i..], mic.states) == PulledStates(server.images, listed, server.states)
        invariant forall j :: j in toDelete <==> 0 <= j < i && IsDone(server.images, listed[j])
      {
        assert listed[i..][0] == listed[i] && listed[i..][1..] == listed[i + 1..];
        var done := UpdateStatusByPullPod(listed[i]);
        if done {
          toDelete := toDelete + {i};
        }
      }
      assert listed[|listed|..] == [];
      if f.pullPatch {
        mic := server;
        return true;
      }
      failed := DeletePods(listed, toDelete, f.podDeletes);
    }

    method DeletePods(listed: seq<PullPod>, toDelete: set<int>, refused: set<nat>) returns (failed: bool)
      requires forall j :: j in toDelete <==> 0 <= j < |listed| && IsDone(mic.images, listed[j])
      modifies this`pullPods
      ensures pullPods == PodsLeft(mic.images, listed, refused)
      ensures failed <==> exists p :: p in listed && IsDone(mic.images, p) && p.uid in refused
    {
      failed := false;
      pullPods := [];
      for i := 0 to |listed|
        invariant pullPods == PodsLeft(mic.images, listed[..i], refused)
        invariant failed <==> exists p :: p in listed[..i] && IsDone(mic.images, p) && p.uid in refused
      {
        PrefixStep(listed, i);
        PodsLeftAppend(mic.images, listed[..i], listed[i], refused);
        if i !in toDelete {
          pullPods := pullPods + [listed[i]];
        } else if listed[i].uid in refused {
          pullPods := pullPods + [listed[i]];
          failed := true;
        }
      }
      assert listed[..|listed|] == listed;
    }

    method UpdateStatusByMbsc(f: MicFaults) returns (failed: bool)
      modifies this`mic, this`log
      ensures View() == AfterResults(old(View()), f)
      ensures failed <==> mbsc.Some? && f.resultPatch
    {
      if mbsc.None? {
        return false;
      }
      var server := mic;
      var results := mbsc.value.results;
      for i := 0 to |results|
        invariant log == old(log) && mic == server.(states := mic.states)
        invariant ResultStates(server.images, results[i..], mic.states) == ResultStates(server.images, results, server.states)
      {
        var e := results[i];
        assert results[i..][0] == e && results[i..][1..] == results[i + 1..];
        var spec := SpecOf(mic.images, e.image);
        if spec.None? {
          continue;
        }
        if e.outcome == Failure {
          SetImageStatus(e.image, DoesNotExist);
        } else if e.action == SignImage {
          SetImageStatus(e.image, Exists);
        } else if spec.value.sign.Some? {
          SetImageStatus(e.image, NeedsSigning);
        } else {
          SetImageStatus(e.image, Exists);
        }
      }
      assert results[|results|..] == [];
      if f.resultPatch {
        mic := server;
        return true;
      }
      log := log.(uses := log.uses + UsesOf(mic.images, results, log));
      return false;
    }

    method CreateOrPatchMbsc(spec: ImageSpec, action: Action)
      modifies this`mbsc, this`nextUid, this`log
      ensures View() == WithTask(old(View()), Task(spec, action))
    {
      var task := Task(spec, action);
      if mbsc.None? {
        log := log.(births := log.births[nextUid := log.adoptions]);
        mbsc := Some(Mbsc(nextUid, [task], []));
        nextUid := nextUid + 1;
        return;
      }
      var tasks := mbsc.value.tasks;
      var i := 0;
      while i < |tasks| && tasks[i].spec.image != spec.image
        invariant i <= |tasks|
        invariant forall j :: 0 <= j < i ==> tasks[j].spec.image != spec.image
      {
        i := i + 1;
      }
      SetTaskAt(tasks, task, i);
      mbsc := Some(mbsc.value.(tasks := if i < |tasks| then tasks[i := task] else tasks + [task]));
    }

    method ProcessImageSpec(spec: ImageSpec, listed: seq<PullPod>, f: MicFaults)
      modifies this`mbsc, this`pullPods, this`nextUid, this`log
      ensures View() == ImageStep(old(View()), spec, listed, f.calls)
    {
      if spec.image in f.calls {
        return;
      }
      match StateOf(mic.states, spec.image) {
        case None =>
          if !HasPullPod(listed, spec.image) {
            var oneTime := spec.build || spec.sign.Some? || spec.skipWait;
            pullPods := pullPods + [PullPod(nextUid, spec.image, oneTime, Pending(false, None))];
            nextUid := nextUid + 1;
          }
        case Some(Exists) =>
        case Some(DoesNotExist) =>
          if spec.build || spec.sign.Some? {
            CreateOrPatchMbsc(spec, BuildImage);
          }
        case Some(NeedsBuilding) =>
          CreateOrPatchMbsc(spec, BuildImage);
        case Some(NeedsSigning) =>
          CreateOrPatchMbsc(spec, SignImage);
      }
    }

    method ProcessImagesSpecs(listed: seq<PullPod>, f: MicFaults)
      modifies this`mbsc, this`pullPods, this`nextUid, this`log
      ensures View() == ImagesPhase(old(View()), mic.images, listed, f.calls)
    {
      var images := mic.images;
      for i := 0 to |images|
        invariant ImagesPhase(View(), images[i..], listed, f.calls) == ImagesPhase(old(View()), images, listed, f.calls)
      {
        assert images[i..][0] == images[i] && images[i..][1..] == images[i + 1..];
        ProcessImageSpec(images[i], listed, f);
      }
      assert images[|images|..] == [];
    }

    method Reconcile(f: MicFaults)
      modifies this`mic, this`mbsc, this`pullPods, this`nextUid, this`log
      ensures View() == MicPass(old(View()), f)
    {
      var changed, failed := HandleImageRebuildTriggerGeneration(f);
      if failed || changed {
        return;
      }
      var listed := pullPods;
      failed := UpdateStatusByPullPods(f);
      if failed {
        return;
      }
      failed := UpdateStatusByMbsc(f);
      if failed {
        return;
      }
      ProcessImagesSpecs(listed, f);
    }
  }

  class MbscReconciler {
    var mbsc: Mbsc
    var pods: map<PodName, BuildPod>

    method SetImageStatus(e: ResultEntry)
      modifies this`mbsc
      ensures mbsc == old(mbsc).(results := SetResult(old(mbsc.results), e))
    {
      var i := 0;
      while i < |mbsc.results| && mbsc.results[i].image != e.image
        invariant i <= |mbsc.results| && mbsc == old(mbsc)
        invariant forall j :: 0 <= j < i ==> mbsc.results[j].image != e.image
      {
        i := i + 1;
      }
      SetResultAt(mbsc.results, e, i);
      mbsc := mbsc.(results := if i < |mbsc.results| then mbsc.results[i := e] else mbsc.results + [e]);
    }

    method UpdateTaskStatus(t: Task, lists: set<PodName>) returns (failed: bool)
      modifies this`mbsc
      ensures mbsc == old(mbsc).(results := CollectStep(pods - lists, old(mbsc.uid), t, old(mbsc.results)))
      ensures failed <==> TaskFails(pods, old(mbsc.uid), t, lists)
    {
      if NameOf(t) in lists {
        return true;
      }
      failed := false;
      match OwnedPod(pods, mbsc.uid, NameOf(t)) {
        case None =>
        case Some(pod) =>
          match pod.phase {
            case Succeeded => SetImageStatus(ResultEntry(t.spec.image, t.action, Success, pod.owner));
            case Failed => SetImageStatus(ResultEntry(t.spec.image, t.action, Failure, pod.owner));
            case Unknown => failed := true;
            case _ =>
          }
      }
    }

    method UpdateStatus(f: MbscFaults) returns (failed: bool)
      modifies this`mbsc
      ensures mbsc == if f.statusPatch then old(mbsc)
                      else old(mbsc).(results := Collected(pods - f.lists, old(mbsc.uid), old(mbsc.tasks), old(mbsc.results)))
      ensures failed <==> f.statusPatch || StatusFails(pods, mbsc.uid, mbsc.tasks, f.lists)
    {
      failed := false;
      var server := mbsc;
      var tasks := mbsc.tasks;
      for i := 0 to |tasks|
        invariant mbsc == server.(results := mbsc.results)
        invariant Collected(pods - f.lists, server.uid, tasks[i..], mbsc.results) == Collected(pods - f.lists, server.uid, tasks, server.results)
        invariant failed <==> StatusFails(pods, server.uid, tasks[..i], f.lists)
      {
        assert tasks[i..][0] == tasks[i] && tasks[i..][1..] == tasks[i + 1..];
        PrefixStep(tasks, i);
        var bad := UpdateTaskStatus(tasks[i], f.lists);
        failed := failed || bad;
      }
      assert tasks[|tasks|..] == [] && tasks[..|tasks|] == tasks;
      if f.statusPatch {
        mbsc := server;
        failed := true;
      }
    }

    /** Creates the pod of a build or sign entry, or deletes it when its template has changed. */
    method Sync(t: Task, f: MbscFaults) returns (failed: bool)
      requires MakeTemplate(t) == Template
      modifies this`pods
      ensures pods == SyncPod(old(pods), mbsc.uid, t, f)
      ensures failed <==> CreateFails(old(pods), mbsc.uid, t, f)
    {
      failed := false;
      var name := NameOf(t);
      if OwnedPod(pods, mbsc.uid, name).None? {
        if name in pods {
          return;
        }
        if name in f.creates {
          return true;
        }
        pods := pods[name := BuildPod(mbsc.uid, t.spec.image, Pending(false, None))];
      } else if name in f.changed && name !in f.lingering {
        pods := pods - {name};
      }
    }

    method ProcessImagesSpecs(f: MbscFaults) returns (end: SyncEnd)
      modifies this`pods
      ensures (pods, end) == SyncTasks(old(pods), mbsc.uid, mbsc.tasks, mbsc.results, f, Clean)
    {
      end := Clean;
      var tasks := mbsc.tasks;
      for i := 0 to |tasks|
        invariant SyncTasks(pods, mbsc.uid, tasks[i..], mbsc.results, f, end) == SyncTasks(old(pods), mbsc.uid, tasks, mbsc.results, f, Clean)
      {
        var t := tasks[i];
        assert tasks[i..][0] == t && tasks[i..][1..] == tasks[i + 1..];
        if OutcomeOf(mbsc.results, t.spec.image, t.action) == Some(Success) {
          continue;
        }
        match MakeTemplate(t) {
          case MissingSection =>
            return Crashed;
          case NoUnsignedImage =>
            end := Errors;
          case Template =>
            if NameOf(t) in f.prepares {
              end := Errors;
            } else {
              var failed := Sync(t, f);
              if failed {
                end := Errors;
              }
            }
        }
      }
      assert tasks[|tasks|..] == [];
    }

    /** Deletes the owned pods that succeeded. */
    method GarbageCollect(f: MbscFaults)
      modifies this`pods
      ensures pods == GarbageCollected(old(pods), mbsc.uid, f.lingering)
    {
      var rest := set n | n in pods && pods[n].owner == mbsc.uid;
      ghost var before := pods;
      while rest != {}
        invariant rest <= pods.Keys <= before.Keys
        invariant forall n :: n in pods ==> pods[n] == before[n]
        invariant forall n :: n in before ==>
                    (n in pods <==> n in rest || !(before[n].owner == mbsc.uid && before[n].phase == Succeeded && n !in f.lingering))
        decreases rest
      {
        var n :| n in rest;
        if pods[n].phase == Succeeded && n !in f.lingering {
          pods := pods - {n};
        }
        rest := rest - {n};
      }
      assert pods == GarbageCollected(before, mbsc.uid, f.lingering);
    }

    ghost predicate Shows(w: World)
      reads this
    {
      w.mbsc == Some(mbsc) && w.pods == pods
    }

    method Reconcile(f: MbscFaults, ghost w: World)
      requires Shows(w)
      modifies this
      ensures Shows(MbscPass(w, f)) && MbscPass(w, f) == w.(mbsc := Some(mbsc), pods := pods)
    {
      var failed := UpdateStatus(f);
      if failed {
        return;
      }
      var end := ProcessImagesSpecs(f);
      if end != Clean {
        return;
      }
      GarbageCollect(f);
    }
  }
}
