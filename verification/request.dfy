/** `createEventRequest`: read every file of one group and sort its bytes into
    the overview, front and rear image lists of the request, using `find()` on
    the file name with overview before front before rear. */
module Request {
  import opened Wrappers
  import opened Files
  import opened Patterns

  datatype Role = Overview | Front | Rear

  /** The three compiled role patterns of one run. */
  datatype RolePatterns = RolePatterns(front: Pattern, rear: Pattern, overview: Pattern)

  /** The bytes of one image as sent in the request. */
  type Image = seq<byte>

  /** The `EventRequest` message: one list of images per role. */
  datatype EventRequest = EventRequest(frontImage: seq<Image>, rearImage: seq<Image>, overviewImage: seq<Image>)

  /** `Files.readAllBytes`, as an oracle: None stands for an IOException. */
  type Reader = File -> Option<Image>

  /** The role the if/else-if chain of `createEventRequest` gives a file name. */
  function RequestRole(p: RolePatterns, name: string): Option<Role>
  {
    if Found(p.overview, name) then Some(Overview)
    else if Found(p.front, name) then Some(Front)
    else if Found(p.rear, name) then Some(Rear)
    else None
  }

  /** The files that end up as images of `role`: readable and classified so. */
  function InRole(read: Reader, p: RolePatterns, role: Role): File -> bool
  {
    (f: File) => read(f).Some? && RequestRole(p, f.name) == Some(role)
  }

  /** The files that end up in some image list. */
  function Classified(read: Reader, p: RolePatterns): File -> bool
  {
    (f: File) => read(f).Some? && RequestRole(p, f.name).Some?
  }

  /** The bytes read from a file (nothing for an unreadable one). */
  function Payload(read: Reader, f: File): Image
  {
    match read(f)
    case Some(data) => data
    case None => []
  }

  function Payloads(read: Reader, files: seq<File>): seq<Image>
  {
    MapSeq(files, (f: File) => Payload(read, f))
  }

  /** The request a group yields, stated as three filters over the group's
      files: the image lists keep the input order; no request (Java's null)
      when all three are empty. */
  function RequestOf(files: seq<File>, read: Reader, p: RolePatterns): Option<EventRequest>
  {
    var front := Payloads(read, Filter(files, InRole(read, p, Front)));
    var rear := Payloads(read, Filter(files, InRole(read, p, Rear)));
    var overview := Payloads(read, Filter(files, InRole(read, p, Overview)));
    if front == [] && rear == [] && overview == [] then None
    else Some(EventRequest(front, rear, overview))
  }

  /** The image count of a request (`requestCount` in `onNext`). */
  function ImageCount(r: EventRequest): nat
  {
    |r.frontImage| + |r.rearImage| + |r.overviewImage|
  }

  lemma PayloadsSnoc(read: Reader, files: seq<File>, f: File)
    ensures Payloads(read, files + [f]) == Payloads(read, files) + [Payload(read, f)]
  {
  }

  /** `createEventRequest(files, frontRegex, rearRegex, overviewRegex)`: one pass
      over the files, skipping those that cannot be read, appending each read
      image to the list of the first role pattern found in its name. */
  method CreateEventRequest(files: seq<File>, read: Reader, p: RolePatterns) returns (r: Option<EventRequest>)
    ensures r == RequestOf(files, read, p)
  {
    var frontImages: seq<Image> := [];
    var rearImages: seq<Image> := [];
    var overviewImages: seq<Image> := [];
    var i := 0;
    while i < |files|
      invariant 0 <= i <= |files|
      invariant frontImages == Payloads(read, Filter(files[..i], InRole(read, p, Front)))
      invariant rearImages == Payloads(read, Filter(files[..i], InRole(read, p, Rear)))
      invariant overviewImages == Payloads(read, Filter(files[..i], InRole(read, p, Overview)))
    {
      var file := files[i];
      assert files[..i + 1] == files[..i] + [file];
      FilterSnoc(files[..i], file, InRole(read, p, Front));
      FilterSnoc(files[..i], file, InRole(read, p, Rear));
      FilterSnoc(files[..i], file, InRole(read, p, Overview));
      PayloadsSnoc(read, Filter(files[..i], InRole(read, p, Front)), file);
      PayloadsSnoc(read, Filter(files[..i], InRole(read, p, Rear)), file);
      PayloadsSnoc(read, Filter(files[..i], InRole(read, p, Overview)), file);
      match read(file) {
        case None =>
        case Some(imageData) =>
          if Found(p.overview, file.name) {
            overviewImages := overviewImages + [imageData];
          } else if Found(p.front, file.name) {
            frontImages := frontImages + [imageData];
          } else if Found(p.rear, file.name) {
            rearImages := rearImages + [imageData];
          }
      }
      i := i + 1;
    }
    assert files[..|files|] == files;
    if frontImages == [] && rearImages == [] && overviewImages == [] {
      return None;
    }
    return Some(EventRequest(frontImages, rearImages, overviewImages));
  }

  // ---------------------------------------------------------------------
  // Properties of the request.

  /** Each classified file is counted in exactly one role. */
  lemma {:induction false} RoleCountsSum(files: seq<File>, read: Reader, p: RolePatterns)
    ensures Count(files, InRole(read, p, Front)) + Count(files, InRole(read, p, Rear))
            + Count(files, InRole(read, p, Overview)) == Count(files, Classified(read, p))
    decreases |files|
  {
    if |files| > 0 {
      RoleCountsSum(files[1..], read, p);
    }
  }

  /** A file lands in the list of `role` exactly when it is readable and the
      precedence chain over `find()` picks `role`; no file is in two lists. */
  lemma RoleMembership(files: seq<File>, read: Reader, p: RolePatterns, f: File)
    ensures f in Filter(files, InRole(read, p, Overview)) <==>
              f in files && read(f).Some? && Found(p.overview, f.name)
    ensures f in Filter(files, InRole(read, p, Front)) <==>
              f in files && read(f).Some? && !Found(p.overview, f.name) && Found(p.front, f.name)
    ensures f in Filter(files, InRole(read, p, Rear)) <==>
              f in files && read(f).Some? && !Found(p.overview, f.name) && !Found(p.front, f.name) && Found(p.rear, f.name)
  {
    FilterMembership(files, InRole(read, p, Overview), f);
    FilterMembership(files, InRole(read, p, Front), f);
    FilterMembership(files, InRole(read, p, Rear), f);
  }

  /** The three role lists partition the classified files: as multisets, their
      union is exactly the readable files that match some role pattern. */
  lemma {:induction false} RolesPartition(files: seq<File>, read: Reader, p: RolePatterns)
    ensures multiset(Filter(files, InRole(read, p, Front))) + multiset(Filter(files, InRole(read, p, Rear)))
            + multiset(Filter(files, InRole(read, p, Overview))) == multiset(Filter(files, Classified(read, p)))
    decreases |files|
  {
    if |files| > 0 {
      RolesPartition(files[1..], read, p);
    }
  }

  /** No request is built (Java returns null) iff no readable file matches any
      role pattern; otherwise its image count is the number of such files. */
  lemma RequestNullIff(files: seq<File>, read: Reader, p: RolePatterns)
    ensures RequestOf(files, read, p).None? <==>
              forall i :: 0 <= i < |files| ==> read(files[i]).None? || RequestRole(p, files[i].name).None?
    ensures RequestOf(files, read, p).Some? ==>
              ImageCount(RequestOf(files, read, p).value) == Count(files, Classified(read, p)) > 0
  {
    RoleCountsSum(files, read, p);
    FilterLength(files, InRole(read, p, Front));
    FilterLength(files, InRole(read, p, Rear));
    FilterLength(files, InRole(read, p, Overview));
    FilterLength(files, Classified(read, p));
    var c := Filter(files, Classified(read, p));
    if forall i :: 0 <= i < |files| ==> read(files[i]).None? || RequestRole(p, files[i].name).None? {
      FilterNone(files, Classified(read, p));
    } else {
      var i :| 0 <= i < |files| && read(files[i]).Some? && RequestRole(p, files[i].name).Some?;
      FilterMembership(files, Classified(read, p), files[i]);
    }
  }

  /** Unreadable files are skipped without affecting the rest of the group:
      removing one from anywhere in the list leaves the request unchanged. */
  lemma UnreadableSkipped(before: seq<File>, f: File, after: seq<File>, read: Reader, p: RolePatterns)
    requires read(f).None?
    ensures RequestOf(before + [f] + after, read, p) == RequestOf(before + after, read, p)
  {
    forall role: Role
      ensures Filter(before + [f] + after, InRole(read, p, role)) == Filter(before + after, InRole(read, p, role))
    {
      FilterConcat(before + [f], after, InRole(read, p, role));
      FilterSnoc(before, f, InRole(read, p, role));
      FilterConcat(before, after, InRole(read, p, role));
    }
  }
}
