/** `ResourceService`: the in-memory index group -> course code -> list of
    resource records. Disk writes are reduced to their success flag, and
    the random ids are parameters. */
module ResourceService {
  import opened Wrappers
  import opened JavaString

  datatype ResourceInfo = ResourceInfo(id: string, title: string, filename: Option<string>)

  type Resources = map<string, map<string, seq<ResourceInfo>>>

  datatype StoreError = EmptyFile | StorageFailed

  /** What `storeFile` reads of the multipart file. */
  datatype UploadedFile = UploadedFile(originalFilename: Option<string>, size: nat)

  /** The saved record and the name the file got on disk. */
  datatype Stored = Stored(info: ResourceInfo, storedFilename: string)

  /** `getAllResourcesForGroup`: an unknown group has an empty index. */
  function GetAllResourcesForGroup(res: Resources, userGroup: string): (r: map<string, seq<ResourceInfo>>)
    ensures userGroup !in res ==> r == map[]
    ensures userGroup in res ==> r == res[userGroup]
  {
    if userGroup in res then res[userGroup] else map[]
  }

  /** `getResourcesForCourse`: an unknown group or course has an empty list. */
  function GetResourcesForCourse(res: Resources, userGroup: string, courseCode: string): (r: seq<ResourceInfo>)
    ensures userGroup !in res || courseCode !in res[userGroup] ==> r == []
    ensures userGroup in res && courseCode in res[userGroup] ==> r == res[userGroup][courseCode]
  {
    var byCourse := GetAllResourcesForGroup(res, userGroup);
    if courseCode in byCourse then byCourse[courseCode] else []
  }

  /** The two nested `computeIfAbsent(...).add(info)`: the record is
      appended to the (group, course) list, missing levels are created, and
      every other list stays as it was. */
  function AddResource(res: Resources, userGroup: string, courseCode: string, info: ResourceInfo): (r: Resources)
    ensures r.Keys == res.Keys + {userGroup}
    ensures r[userGroup].Keys == GetAllResourcesForGroup(res, userGroup).Keys + {courseCode}
    ensures GetResourcesForCourse(r, userGroup, courseCode) == GetResourcesForCourse(res, userGroup, courseCode) + [info]
    ensures forall g, c :: (g != userGroup || c != courseCode) ==>
      GetResourcesForCourse(r, g, c) == GetResourcesForCourse(res, g, c)
  {
    var byCourse := GetAllResourcesForGroup(res, userGroup);
    var list := GetResourcesForCourse(res, userGroup, courseCode);
    res[userGroup := byCourse[courseCode := list + [info]]]
  }

  /** `storeFile`: an empty file or a failed disk write fails and leaves the
      index unchanged; otherwise the record (fresh id, title, original name)
      is appended under the group and course, and the file is kept on disk
      as id + "_" + original name. */
  function StoreFile(res: Resources, file: UploadedFile, userGroup: string, courseCode: string, title: string,
                     fileId: string, written: bool): (r: (Resources, Result<Stored, StoreError>))
    ensures file.size == 0 ==> r == (res, Err(EmptyFile))
    ensures file.size > 0 && !written ==> r == (res, Err(StorageFailed))
    ensures r.1.Ok? <==> file.size > 0 && written
    ensures r.1.Ok? ==>
      var info := r.1.value.info;
      && info == ResourceInfo(fileId, title, file.originalFilename)
      && r.1.value.storedFilename == fileId + "_" + StringOf(file.originalFilename)
      && r.0 == AddResource(res, userGroup, courseCode, info)
  {
    if file.size == 0 then (res, Err(EmptyFile))
    else
      var storedFilename := fileId + "_" + StringOf(file.originalFilename);
      if !written then (res, Err(StorageFailed))
      else
        var info := ResourceInfo(fileId, title, file.originalFilename);
        (AddResource(res, userGroup, courseCode, info), Ok(Stored(info, storedFilename)))
  }

  /** The seven seeded records, with `ids` standing for their random ids. */
  function SeedInfo(ids: seq<string>, k: nat): ResourceInfo
    requires |ids| == 7 && k < 7
  {
    if k == 0 then ResourceInfo(ids[0], "Introduction to Algorithms", Some("lecture_notes.pdf"))
    else if k == 1 then ResourceInfo(ids[1], "Sorting Algorithms", Some("sorting.pdf"))
    else if k == 2 then ResourceInfo(ids[2], "Process Management", Some("processes.pdf"))
    else if k == 3 then ResourceInfo(ids[3], "C++ Basics", Some("cpp_basics.pdf"))
    else if k == 4 then ResourceInfo(ids[4], "Set Theory", Some("sets.pdf"))
    else if k == 5 then ResourceInfo(ids[5], "Search Algorithms", Some("search.pdf"))
    else ResourceInfo(ids[6], "Regression Models", Some("regression.pdf"))
  }

  /** The index after the first `k` calls of `addDummyResource`. */
  function SeedPrefix(ids: seq<string>, k: nat): Resources
    requires |ids| == 7 && k <= 7
  {
    if k == 0 then map[]
    else
      var prev := SeedPrefix(ids, k - 1);
      var info := SeedInfo(ids, k - 1);
      if k == 1 then AddResource(prev, "bt23cseds", "DSA", info)
      else if k == 2 then AddResource(prev, "bt23cseds", "DSA", info)
      else if k == 3 then AddResource(prev, "bt23cseds", "OS", info)
      else if k == 4 then AddResource(prev, "bt24cseds", "PF", info)
      else if k == 5 then AddResource(prev, "bt24cseds", "DM", info)
      else if k == 6 then AddResource(prev, "bt23cseai", "AI", info)
      else AddResource(prev, "bt23cseai", "ML", info)
  }

  /** The index the constructor seeds. */
  function Seeded(ids: seq<string>): Resources
    requires |ids| == 7
  {
    SeedPrefix(ids, 7)
  }

  /** Adding under one (group, course) pair leaves another pair's list as
      it was. */
  lemma AddLeavesOthers(res: Resources, g: string, c: string, info: ResourceInfo, g2: string, c2: string)
    requires g != g2 || c != c2
    ensures GetResourcesForCourse(AddResource(res, g, c, info), g2, c2) == GetResourcesForCourse(res, g2, c2)
  {
  }

  /** The index after the first three seeded records. */
  lemma SeedThree(ids: seq<string>)
    requires |ids| == 7
    ensures GetResourcesForCourse(SeedPrefix(ids, 3), "bt23cseds", "DSA") == [SeedInfo(ids, 0), SeedInfo(ids, 1)]
    ensures GetResourcesForCourse(SeedPrefix(ids, 3), "bt23cseds", "OS") == [SeedInfo(ids, 2)]
    ensures SeedPrefix(ids, 3).Keys == {"bt23cseds"}
  {
    var r1 := SeedPrefix(ids, 1);
    var r2 := SeedPrefix(ids, 2);
    var r0 := SeedPrefix(ids, 0);
    assert r0 == map[];
    assert r1 == AddResource(r0, "bt23cseds", "DSA", SeedInfo(ids, 0));
    assert r2 == AddResource(r1, "bt23cseds", "DSA", SeedInfo(ids, 1));
    assert SeedPrefix(ids, 3) == AddResource(r2, "bt23cseds", "OS", SeedInfo(ids, 2));
    assert GetResourcesForCourse(r1, "bt23cseds", "DSA") == [SeedInfo(ids, 0)];
    assert GetResourcesForCourse(r2, "bt23cseds", "DSA") == [SeedInfo(ids, 0), SeedInfo(ids, 1)];
    AddLeavesOthers(SeedPrefix(ids, 2), "bt23cseds", "OS", SeedInfo(ids, 2), "bt23cseds", "DSA");
  }

  /** The index after the first four seeded records. */
  lemma SeedFour(ids: seq<string>)
    requires |ids| == 7
    ensures GetResourcesForCourse(SeedPrefix(ids, 4), "bt23cseds", "DSA") == [SeedInfo(ids, 0), SeedInfo(ids, 1)]
    ensures GetResourcesForCourse(SeedPrefix(ids, 4), "bt23cseds", "OS") == [SeedInfo(ids, 2)]
    ensures GetResourcesForCourse(SeedPrefix(ids, 4), "bt24cseds", "PF") == [SeedInfo(ids, 3)]
    ensures GetResourcesForCourse(SeedPrefix(ids, 4), "bt24cseds", "DM") == []
    ensures SeedPrefix(ids, 4).Keys == {"bt23cseds", "bt24cseds"}
  {
    SeedThree(ids);
    var r3 := SeedPrefix(ids, 3);
    assert SeedPrefix(ids, 4) == AddResource(r3, "bt24cseds", "PF", SeedInfo(ids, 3));
    AddLeavesOthers(r3, "bt24cseds", "PF", SeedInfo(ids, 3), "bt23cseds", "DSA");
    AddLeavesOthers(r3, "bt24cseds", "PF", SeedInfo(ids, 3), "bt23cseds", "OS");
    AddLeavesOthers(r3, "bt24cseds", "PF", SeedInfo(ids, 3), "bt24cseds", "DM");
  }

  /** The index after the first five seeded records. */
  lemma SeedFive(ids: seq<string>)
    requires |ids| == 7
    ensures GetResourcesForCourse(SeedPrefix(ids, 5), "bt23cseds", "DSA") == [SeedInfo(ids, 0), SeedInfo(ids, 1)]
    ensures GetResourcesForCourse(SeedPrefix(ids, 5), "bt23cseds", "OS") == [SeedInfo(ids, 2)]
    ensures GetResourcesForCourse(SeedPrefix(ids, 5), "bt24cseds", "PF") == [SeedInfo(ids, 3)]
    ensures GetResourcesForCourse(SeedPrefix(ids, 5), "bt24cseds", "DM") == [SeedInfo(ids, 4)]
    ensures SeedPrefix(ids, 5).Keys == {"bt23cseds", "bt24cseds"}
  {
    SeedFour(ids);
    var r4 := SeedPrefix(ids, 4);
    assert SeedPrefix(ids, 5) == AddResource(r4, "bt24cseds", "DM", SeedInfo(ids, 4));
    AddLeavesOthers(r4, "bt24cseds", "DM", SeedInfo(ids, 4), "bt23cseds", "DSA");
    AddLeavesOthers(r4, "bt24cseds", "DM", SeedInfo(ids, 4), "bt23cseds", "OS");
    AddLeavesOthers(r4, "bt24cseds", "DM", SeedInfo(ids, 4), "bt24cseds", "PF");
  }

  /** The index after the first six seeded records. */
  lemma SeedSix(ids: seq<string>)
    requires |ids| == 7
    ensures GetResourcesForCourse(SeedPrefix(ids, 6), "bt23cseds", "DSA") == [SeedInfo(ids, 0), SeedInfo(ids, 1)]
    ensures GetResourcesForCourse(SeedPrefix(ids, 6), "bt23cseds", "OS") == [SeedInfo(ids, 2)]
    ensures GetResourcesForCourse(SeedPrefix(ids, 6), "bt24cseds", "PF") == [SeedInfo(ids, 3)]
    ensures GetResourcesForCourse(SeedPrefix(ids, 6), "bt24cseds", "DM") == [SeedInfo(ids, 4)]
    ensures GetResourcesForCourse(SeedPrefix(ids, 6), "bt23cseai", "AI") == [SeedInfo(ids, 5)]
    ensures GetResourcesForCourse(SeedPrefix(ids, 6), "bt23cseai", "ML") == []
    ensures SeedPrefix(ids, 6).Keys == {"bt23cseds", "bt24cseds", "bt23cseai"}
  {
    SeedFive(ids);
    var r5 := SeedPrefix(ids, 5);
    assert SeedPrefix(ids, 6) == AddResource(r5, "bt23cseai", "AI", SeedInfo(ids, 5));
    AddLeavesOthers(r5, "bt23cseai", "AI", SeedInfo(ids, 5), "bt23cseds", "DSA");
    AddLeavesOthers(r5, "bt23cseai", "AI", SeedInfo(ids, 5), "bt23cseds", "OS");
    AddLeavesOthers(r5, "bt23cseai", "AI", SeedInfo(ids, 5), "bt24cseds", "PF");
    AddLeavesOthers(r5, "bt23cseai", "AI", SeedInfo(ids, 5), "bt24cseds", "DM");
    AddLeavesOthers(r5, "bt23cseai", "AI", SeedInfo(ids, 5), "bt23cseai", "ML");
  }

  /** After construction: three groups; DSA of bt23cseds lists its two
      records in insertion order, and each other seeded list holds one. */
  lemma SeededContents(ids: seq<string>)
    requires |ids| == 7
    ensures Seeded(ids).Keys == {"bt23cseds", "bt24cseds", "bt23cseai"}
    ensures var dsa := GetResourcesForCourse(Seeded(ids), "bt23cseds", "DSA");
      |dsa| == 2 && dsa[0].title == "Introduction to Algorithms" && dsa[1].title == "Sorting Algorithms"
    ensures |GetResourcesForCourse(Seeded(ids), "bt23cseds", "OS")| == 1
    ensures |GetResourcesForCourse(Seeded(ids), "bt24cseds", "PF")| == 1
    ensures |GetResourcesForCourse(Seeded(ids), "bt24cseds", "DM")| == 1
    ensures |GetResourcesForCourse(Seeded(ids), "bt23cseai", "AI")| == 1
    ensures |GetResourcesForCourse(Seeded(ids), "bt23cseai", "ML")| == 1
  {
    SeedSix(ids);
    var r6 := SeedPrefix(ids, 6);
    assert Seeded(ids) == AddResource(r6, "bt23cseai", "ML", SeedInfo(ids, 6));
    AddLeavesOthers(r6, "bt23cseai", "ML", SeedInfo(ids, 6), "bt23cseds", "DSA");
    AddLeavesOthers(r6, "bt23cseai", "ML", SeedInfo(ids, 6), "bt23cseds", "OS");
    AddLeavesOthers(r6, "bt23cseai", "ML", SeedInfo(ids, 6), "bt24cseds", "PF");
    AddLeavesOthers(r6, "bt23cseai", "ML", SeedInfo(ids, 6), "bt24cseds", "DM");
    AddLeavesOthers(r6, "bt23cseai", "ML", SeedInfo(ids, 6), "bt23cseai", "AI");
  }
}
