/** Repeating a successful CreateVolume finds the volume it created. */
module Idempotency {
  import opened Results
  import opened Undoing
  import opened Volumes
  import opened Worlds
  import opened Lookups
  import opened Demands
  import opened Steps
  import opened Created
  import opened UniqueRuns
  import opened Controller

  // After a creation some visible volume has its name exactly if the created volume is no share on a UC DSM or a share
  // of its name is listed elsewhere.
  lemma SomeHitIff(volName: string, w: World, w': World, v: Volume, failed: set<(string, Undo)>)
    requires WorldValid(w) && WorldValid(w') && Step(w, Created(volName, Some(v), failed), w')
    ensures v.ip in w'
    ensures (exists u :: Visible(w', u) && NameHit(volName, u)) <==>
            Findable(w', v) || exists ip :: HoldsShare(w', ip, volName)
  {
    hide WorldValid, SameBacking, Visible, NameHit, HoldsShare, Built;
    if Findable(w', v) {
      var u := CreatedIsVisible(volName, w, w', v, failed);
    }
    if ip :| HoldsShare(w', ip, volName) {
      var u := HeldShareIsHit(w', ip, volName);
    }
    if u :| Visible(w', u) && NameHit(volName, u) {
      HitComesFrom(w, w', volName, Some(v), failed, volName, u);
      if SameBacking(u, v) {
        VisibleIsFindable(w', u, v);
      }
    }
  }

  // The repeat, with every call answered: it finds something exactly in that case, and the created volume if it left no
  // such share behind. Otherwise it takes the volume for absent and creates again.
  lemma RepeatFindsCreated(volName: string, w: World, w': World, v: Volume, failed: set<(string, Undo)>, r: Lookup)
    requires WorldValid(w) && WorldValid(w') && Step(w, Created(volName, Some(v), failed), w')
    requires VolumeLookup(w', {}, NameShare(volName), NameVolume(volName), r)
    ensures v.ip in w' && (r.Found? <==> Findable(w', v) || exists ip :: HoldsShare(w', ip, volName))
    ensures Findable(w', v) && OneBacking(volName, Some(v), w') ==>
              r.Found? && SameBacking(r.volume, v) && r.volume.VolumeId() == v.VolumeId()
                  && r.volume.SizeInBytes() == v.SizeInBytes()
    ensures !r.Found? ==> r.Absent?
  {
    hide WorldValid, SameBacking, Visible, Hit, OneBacking, HoldsShare, Built;
    NoFaultsDecide(w', NameShare(volName), NameVolume(volName), r);
    SomeHitIff(volName, w, w', v, failed);
    if Findable(w', v) && OneBacking(volName, Some(v), w') {
      var u := CreatedIsVisible(volName, w, w', v, failed);
      OwnHitsAgree(w, w', volName, Some(v), failed, r.volume, u);
      SameBackingIsTransitive(v, v, v);
      SameThrough(r.volume, u, v, v);
      SameBackingSameName(w', NamesFor(volName), w[v.ip], v, r.volume);
    }
  }

  // ---- the repeated RPC ----

  // CreateVolume, whose calls may fail, made volume v, and is called again with every call answered. The repeat takes
  // no step, and leaves every DSM as it is, exactly if v is no share on a UC DSM or a share of its name is listed
  // elsewhere. If v was answered and left no such share behind, it gets the answer again, except that an NFS share is
  // now called SMB.
  lemma RepeatAnswersAgain(service: DsmService, req: CreateRequest, faults: set<Call>, w: World,
                           r1: Result<CreateResponse, Code>, e1: Event, w1: World, v: Volume,
                           r2: Result<CreateResponse, Code>, e2: Event, w2: World)
    requires WorldValid(w) && WorldValid(w1)
    requires CreateOutcome(service, req, faults, w, r1, e1) && Step(w, e1, w1) && e1.Created? && e1.result == Some(v)
    requires CreateOutcome(service, req, {}, w1, r2, e2) && Step(w1, e2, w2)
    ensures v.ip in w1
    ensures e2 == Unchanged <==> Findable(w1, v) || exists ip :: HoldsShare(w1, ip, req.name)
    ensures e2 == Unchanged ==> w2 == w1
    ensures r1.Ok? && Findable(w1, v) && OneBacking(req.name, Some(v), w1) ==>
              r2 == Ok(r1.value.(protocol := if r1.value.protocol == Nfs then Smb else r1.value.protocol))
  {
    hide Step, WorldValid, Visible, NameHit, OneBacking, HoldsShare, Findable, Validate, SizeFits;
    hide SourceDecides, Reliable, ResultFulfils;
    SomeHitIff(req.name, w, w1, v, e1.failed);
    if e2 == Unchanged {
      UnchangedStep(w1, w2);
      var u :| Visible(w1, u) && NameHit(req.name, u) && r2 == Answer(u, Demand(req).size);
      if r1.Ok? && Findable(w1, v) && OneBacking(req.name, Some(v), w1) {
        RepeatAnswersTheSame(req.name, w, w1, v, e1.failed, u, Demand(req).size);
        NewShareShowsSmb(req.name, w, w1, v, e1.failed);
      }
    } else {
      CreatedHadNoHit(w1, e2, w2);
    }
  }

  lemma CreatedHadNoHit(w: World, e: Event, w': World)
    requires Step(w, e, w') && e.Created?
    ensures forall u | Visible(w, u) :: !NameHit(e.volName, u)
  {
  }

  // The created share was not listed before, so it has no NFS rule yet.
  lemma NewShareShowsSmb(volName: string, w: World, w': World, v: Volume, failed: set<(string, Undo)>)
    requires Step(w, Created(volName, Some(v), failed), w') && v.ip in w' && Findable(w', v)
    ensures v.ShareVolume? ==> ShownProtocol(v) == Smb
  {
    hide Visible, NameHit;
    if v.ShareVolume? && v.ip in w && v.shareName in w[v.ip].store.shares {
      var _ := HeldShareIsHit(w, v.ip, volName);
    }
  }
}
