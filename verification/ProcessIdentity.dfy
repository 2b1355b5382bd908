/**
 Process identity on the endpoint. The entity id is the SHA-256 of host, boot id, PID, create time, image
 path and image hash; the hash is modelled as the free constructor `Derived`, that is, as injective.
 */
module ProcessIdentity {
  datatype EntityId =
    | NoId
    | Derived(host: string, bootId: string, pid: string, createTime: string, image: string, hash: string)
    | Preset(name: string)

  /** The event fields that identity and parent resolution read or write; "" means unset, as in Go. */
  datatype Event = Event(
    tenant: string, eventType: string, host: string, bootId: string,
    pid: string, entity: EntityId, createTime: string, imagePath: string, imageHash: string,
    parentPid: string, parentEntity: EntityId, confidence: string, missingReason: string,
    raw: map<string, string>)

  /** `s, _ := event.Raw[key].(string)` */
  function RawString(raw: map<string, string>, key: string): string {
    if key in raw then raw[key] else ""
  }

  function LowerChar(c: char): char {
    if 'A' <= c <= 'Z' then c - 'A' + 'a' else c
  }

  function Lower(s: string): string {
    if s == "" then "" else Lower(s[..|s| - 1]) + [LowerChar(s[|s| - 1])]
  }

  function ProcessEntityId(host: string, bootId: string, pid: string, createTime: string, image: string,
      hash: string): EntityId {
    Derived(host, bootId, pid, createTime, Lower(image), Lower(hash))
  }

  function IdentityConfidence(createTime: string, imagePath: string, imageHash: string): string {
    if createTime != "" && (imagePath != "" || imageHash != "") then "high"
    else if createTime != "" then "medium"
    else "low"
  }

  function BootOf(e: Event, bootId: string): string {
    if e.bootId == "" then bootId else e.bootId
  }

  function ImageOf(e: Event): string {
    if e.imagePath == "" then RawString(e.raw, "image") else e.imagePath
  }

  function OwnId(e: Event, bootId: string): EntityId {
    if e.entity != NoId then e.entity
    else ProcessEntityId(e.host, BootOf(e, bootId), e.pid, e.createTime, ImageOf(e), e.imageHash)
  }

  /** A collector that knows the parent's create time and image or hash settles the link by itself. */
  predicate NamesParent(e: Event) {
    RawString(e.raw, "parent_process_create_time") != ""
    && (RawString(e.raw, "parent_image_path") != "" || RawString(e.raw, "parent_image_hash") != "")
  }

  function ParentId(e: Event, bootId: string): EntityId {
    if e.parentPid == "" || e.parentEntity != NoId || !NamesParent(e) then e.parentEntity
    else ProcessEntityId(e.host, BootOf(e, bootId), e.parentPid, RawString(e.raw, "parent_process_create_time"),
                         RawString(e.raw, "parent_image_path"), RawString(e.raw, "parent_image_hash"))
  }

  function ParentReason(e: Event): string {
    if e.parentPid == "" || e.parentEntity != NoId || NamesParent(e) || e.missingReason != "" then e.missingReason
    else "parent_identity_unavailable"
  }

  function ApplyProcessIdentity(e: Event, bootId: string): Event {
    if e.pid == "" then e
    else e.(bootId := BootOf(e, bootId), imagePath := ImageOf(e), entity := OwnId(e, bootId),
            confidence := if e.confidence == "" then IdentityConfidence(e.createTime, ImageOf(e), e.imageHash)
                else e.confidence,
            parentEntity := ParentId(e, bootId), missingReason := ParentReason(e))
  }

  /** The event brings no entity id of its own, or one derived from its own PID. */
  predicate HasOwnId(e: Event) {
    e.entity == NoId || (e.entity.Derived? && e.entity.pid == e.pid)
  }

  /** Identified events always carry an id, and PID reuse never confuses ids of different PIDs. */
  lemma IdentityNamesThePid(e: Event, bootId: string)
    requires e.pid != ""
    ensures var r := ApplyProcessIdentity(e, bootId);
      && r.pid == e.pid && r.parentPid == e.parentPid && r.entity != NoId
      && (HasOwnId(e) ==> r.entity.Derived? && r.entity.pid == e.pid)
  {
  }

  /**
   What identification settles: confidence and boot id are known, what was set stays, and a parent PID has
   the parent's id or a reason for its absence, the id derived whenever the event describes the parent.
   */
  lemma IdentityIsSettled(e: Event, bootId: string)
    requires e.pid != ""
    ensures var r := ApplyProcessIdentity(e, bootId);
      && r.confidence != "" && (bootId != "" ==> r.bootId != "")
      && (e.confidence != "" ==> r.confidence == e.confidence) && (e.bootId != "" ==> r.bootId == e.bootId)
      && (e.confidence == "" ==>
            (r.confidence == "high" <==> e.createTime != "" && (r.imagePath != "" || e.imageHash != ""))
            && (r.confidence == "low" <==> e.createTime == ""))
      && (e.parentPid != "" ==> r.parentEntity != NoId || r.missingReason != "")
      && (r.parentEntity == NoId <==> e.parentEntity == NoId && (e.parentPid == "" || !NamesParent(e)))
      && (r.parentEntity != e.parentEntity ==> r.parentEntity.Derived? && r.parentEntity.pid == e.parentPid)
  {
    assert "high"[0] != "low"[0] && "high"[0] != "medium"[0] && "low"[0] != "medium"[0];
  }

  /** Identifying twice, as when a collector has already done it, changes nothing. */
  lemma IdentityIsIdempotent(e: Event, bootId: string)
    ensures ApplyProcessIdentity(ApplyProcessIdentity(e, bootId), bootId) == ApplyProcessIdentity(e, bootId)
  {
    if e.pid != "" {
      IdentityIsSettled(e, bootId);
    }
  }

  /** Same derived id exactly when all six inputs agree, image path and hash up to letter case. */
  lemma DerivedIdsAreInjective(a: Event, b: Event, bootId: string)
    requires a.pid != "" && b.pid != "" && a.entity == NoId && b.entity == NoId
    ensures var x, y := ApplyProcessIdentity(a, bootId), ApplyProcessIdentity(b, bootId);
      x.entity == y.entity <==>
        && x.host == y.host && x.bootId == y.bootId && x.pid == y.pid && x.createTime == y.createTime
        && Lower(x.imagePath) == Lower(y.imagePath) && Lower(x.imageHash) == Lower(y.imageHash)
  {
  }

  /** Lower-casing works letter by letter and touches nothing else. */
  lemma {:induction false} LowerFoldsCase(s: string, i: nat)
    requires i < |s|
    ensures |Lower(s)| == |s|
    ensures Lower(s)[i] == if 'A' <= s[i] <= 'Z' then ((s[i] as int) + 32) as char else s[i]
  {
    var n := |s| - 1;
    if i < n {
      LowerFoldsCase(s[..n], i);
    } else if n > 0 {
      LowerFoldsCase(s[..n], 0);
    }
  }

  /** What identification fills in and what it leaves alone, field by field. */
  lemma IdentityFills(e: Event, bootId: string)
    requires e.pid != ""
    ensures var r := ApplyProcessIdentity(e, bootId);
      && r.imagePath == (if e.imagePath == "" && "image" in e.raw then e.raw["image"] else e.imagePath)
      && r.bootId == (if e.bootId == "" then bootId else e.bootId)
      && r.tenant == e.tenant && r.eventType == e.eventType && r.host == e.host && r.pid == e.pid
      && r.createTime == e.createTime && r.imageHash == e.imageHash && r.parentPid == e.parentPid && r.raw == e.raw
      && (e.entity != NoId ==> r.entity == e.entity)
  {
  }

  ghost predicate HasText(raw: map<string, string>, key: string) {
    key in raw && raw[key] != ""
  }

  /**
   When the parent's id is derived: the event names a parent PID, brings no parent id, and its raw fields give
   the parent's create time and its image path or hash. Otherwise the parent id stays, and a parent PID left
   without one gets a reason, unless it has one.
   */
  lemma ParentIsDerivedIff(e: Event, bootId: string)
    requires e.pid != ""
    ensures var r := ApplyProcessIdentity(e, bootId);
      var derives := e.parentPid != "" && e.parentEntity == NoId && HasText(e.raw, "parent_process_create_time")
        && (HasText(e.raw, "parent_image_path") || HasText(e.raw, "parent_image_hash"));
      && (derives <==> r.parentEntity != e.parentEntity)
      && (derives || e.parentPid == "" || e.parentEntity != NoId || e.missingReason != "" ==>
          r.missingReason == e.missingReason)
      && (!derives && e.parentPid != "" && e.parentEntity == NoId && e.missingReason == "" ==>
            r.missingReason == "parent_identity_unavailable")
  {
  }

  /** A parent and a child that describes it in full derive the same id for it, image and hash up to letter case. */
  lemma ChildNamesItsParent(parent: Event, child: Event, bootId: string)
    requires parent.pid == child.parentPid != "" && child.pid != "" && parent.entity == NoId
        && child.parentEntity == NoId
    requires NamesParent(child)
    requires var p, c := ApplyProcessIdentity(parent, bootId), ApplyProcessIdentity(child, bootId);
      && p.host == c.host && p.bootId == c.bootId
      && RawString(child.raw, "parent_process_create_time") == p.createTime
      && Lower(RawString(child.raw, "parent_image_path")) == Lower(p.imagePath)
      && Lower(RawString(child.raw, "parent_image_hash")) == Lower(p.imageHash)
    ensures ApplyProcessIdentity(child, bootId).parentEntity == ApplyProcessIdentity(parent, bootId).entity
  {
  }
}
