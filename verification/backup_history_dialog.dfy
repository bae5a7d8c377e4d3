/**
 * The backup history dialog: for each run, the storage it went to and a
 * link to the backup file, built from the storage's public URL prefix, its
 * custom path and the file path with single slashes between them. Its
 * paging is `Paging` with kind `BackupHistory`.
 */
module BackupHistoryDialog {
  import opened Wrappers
  import opened Strings
  import opened StorageConfigs

  /** `getStorageType`: the type of the first storage with that id, else "-". */
  function StorageTypeOf(storages: seq<StorageConfig>, storageId: int): (r: string)
    ensures (forall k :: 0 <= k < |storages| ==> storages[k].id != Some(storageId)) ==> r == "-"
    ensures (exists k :: 0 <= k < |storages| && storages[k].id == Some(storageId)) ==>
      r == storages[FindStorage(storages, storageId).value].storageType
  {
    match FindStorage(storages, storageId)
    case None => "-"
    case Some(k) => storages[k].storageType
  }

  // ---------------------------------------------------------------------------
  // The file link

  /** `s.endsWith('/') ? s.slice(0, -1) : s`. */
  function DropTrailingSlash(s: string): (r: string)
    ensures r == s || (r + "/" == s)
  {
    if EndsWith(s, "/") then s[..|s| - 1] else s
  }

  /** `s.startsWith('/') ? s.substring(1) : s`. */
  function DropLeadingSlash(s: string): (r: string)
    ensures r == s || ("/" + r == s)
  {
    if StartsWith(s, "/") then s[1..] else s
  }

  /**
   * The link a run's file gets: none when the storage is unknown or has no
   * URL prefix; else the prefix without one trailing slash, then "/" and the
   * custom path without one slash at each end (left out when that leaves
   * nothing), then "/" and the file path without one leading slash.
   */
  function FileUrlOf(storages: seq<StorageConfig>, storageId: int, filePath: string): Option<string> {
    match StorageWithId(storages, storageId)
    case None => None
    case Some(storage) => LinkFor(storage, filePath)
  }

  /** The link for a file on a known storage. */
  function LinkFor(storage: StorageConfig, filePath: string): Option<string> {
    if storage.accessUrlPrefix == "" then None
    else Some(DropTrailingSlash(storage.accessUrlPrefix) + CustomSegment(storage.customPath) + "/" + DropLeadingSlash(filePath))
  }

  /** The custom path part of the link: "" or "/" and the trimmed custom path. */
  function CustomSegment(customPath: string): (r: string)
    ensures r == "" || StartsWith(r, "/")
  {
    var cp := DropTrailingSlash(DropLeadingSlash(customPath));
    if cp == "" then "" else "/" + cp
  }

  /** `getFileUrl`, reassigning its local variables step by step as the page does. */
  method FileUrl(storages: seq<StorageConfig>, storageId: int, filePath: string) returns (r: Option<string>)
    ensures r == FileUrlOf(storages, storageId, filePath)
  {
    var found := StorageWithId(storages, storageId);
    if found.None? {
      return None;
    }
    r := LinkOf(found.value, filePath);
  }

  /** The part of `getFileUrl` after the storage is found. */
  method LinkOf(storage: StorageConfig, filePath: string) returns (r: Option<string>)
    ensures r == LinkFor(storage, filePath)
  {
    if storage.accessUrlPrefix == "" {
      return None;
    }
    var url := if EndsWith(storage.accessUrlPrefix, "/") then storage.accessUrlPrefix[..|storage.accessUrlPrefix| - 1]
      else storage.accessUrlPrefix;
    ghost var base := url;
    ghost var segment := "";
    if storage.customPath != "" {
      var cp := if StartsWith(storage.customPath, "/") then storage.customPath[1..] else storage.customPath;
      ghost var cp1 := cp;
      cp := if EndsWith(cp, "/") then cp[..|cp| - 1] else cp;
      TrimmedCustomPath(storage.customPath, cp1, cp);
      if cp != "" {
        url := url + ("/" + cp);
        segment := "/" + cp;
      }
    } else {
      EmptyCustomPath();
    }
    var fp := if StartsWith(filePath, "/") then filePath[1..] else filePath;
    LinkPieces(storage, filePath, base, segment, url, fp);
    url := url + ("/" + fp);
    return Some(url);
  }

  /** The two steps the page applies to the custom path give `CustomSegment`. */
  lemma TrimmedCustomPath(customPath: string, cp1: string, cp: string)
    requires cp1 == if StartsWith(customPath, "/") then customPath[1..] else customPath
    requires cp == if EndsWith(cp1, "/") then cp1[..|cp1| - 1] else cp1
    ensures CustomSegment(customPath) == if cp == "" then "" else "/" + cp
  {
    assert cp1 == DropLeadingSlash(customPath);
    assert cp == DropTrailingSlash(cp1);
  }

  lemma EmptyCustomPath()
    ensures CustomSegment("") == ""
  {
    assert DropLeadingSlash("") == "";
    assert DropTrailingSlash("") == "";
  }

  /** The link of a storage with a prefix, from its three pieces. */
  lemma LinkPieces(storage: StorageConfig, filePath: string, base: string, segment: string, url: string, fp: string)
    requires storage.accessUrlPrefix != ""
    requires base == if EndsWith(storage.accessUrlPrefix, "/") then storage.accessUrlPrefix[..|storage.accessUrlPrefix| - 1]
      else storage.accessUrlPrefix
    requires segment == CustomSegment(storage.customPath)
    requires url == if segment == "" then base else base + segment
    requires fp == if StartsWith(filePath, "/") then filePath[1..] else filePath
    ensures LinkFor(storage, filePath) == Some(url + ("/" + fp))
  {
    assert base == DropTrailingSlash(storage.accessUrlPrefix);
    assert fp == DropLeadingSlash(filePath);
    if segment == "" {
      assert base + segment == base;
    }
    JoinAssoc(url, fp);
  }

  lemma JoinAssoc(front: string, fp: string)
    ensures front + ("/" + fp) == front + "/" + fp
  {
  }

  /** No two slashes in a row. */
  predicate NoDoubleSlash(s: string) {
    forall i :: 0 <= i < |s| - 1 ==> !(s[i] == '/' && s[i + 1] == '/')
  }

  lemma ConcatNoDoubleSlash(a: string, b: string)
    requires NoDoubleSlash(a) && NoDoubleSlash(b)
    requires a == [] || b == [] || !(a[|a| - 1] == '/' && b[0] == '/')
    ensures NoDoubleSlash(a + b)
  {
    var s := a + b;
    forall i | 0 <= i < |s| - 1
      ensures !(s[i] == '/' && s[i + 1] == '/')
    {
      if i + 1 < |a| {
        assert s[i] == a[i] && s[i + 1] == a[i + 1];
      } else if i >= |a| {
        assert s[i] == b[i - |a|] && s[i + 1] == b[i + 1 - |a|];
      }
    }
  }

  lemma SliceNoDoubleSlash(s: string, i: nat, j: nat)
    requires i <= j <= |s| && NoDoubleSlash(s)
    ensures NoDoubleSlash(s[i..j])
  {
    var t := s[i..j];
    forall k | 0 <= k < |t| - 1
      ensures !(t[k] == '/' && t[k + 1] == '/')
    {
      assert t[k] == s[i + k] && t[k + 1] == s[i + k + 1];
    }
  }

  /** Dropping one slash from text without "//" leaves no slash at that end. */
  lemma DropSlashes(s: string)
    requires NoDoubleSlash(s)
    ensures NoDoubleSlash(DropTrailingSlash(s)) && NoDoubleSlash(DropLeadingSlash(s))
    ensures var t := DropTrailingSlash(s); t == [] || t[|t| - 1] != '/'
    ensures var t := DropLeadingSlash(s); t == [] || t[0] != '/'
  {
    SliceNoDoubleSlash(s, 0, if EndsWith(s, "/") then |s| - 1 else |s|);
    SliceNoDoubleSlash(s, if StartsWith(s, "/") then 1 else 0, |s|);
    var t := DropTrailingSlash(s);
    if EndsWith(s, "/") && t != [] {
      assert s[|s| - 1] == '/' && t[|t| - 1] == s[|s| - 2];
    }
    var u := DropLeadingSlash(s);
    if StartsWith(s, "/") && u != [] {
      assert s[0] == '/' && u[0] == s[1];
    }
  }

  /** The custom path part has no "//" and does not end with a slash. */
  lemma CustomSegmentClean(customPath: string)
    requires NoDoubleSlash(customPath)
    ensures var mid := CustomSegment(customPath);
      NoDoubleSlash(mid) && (mid == [] || mid[|mid| - 1] != '/')
  {
    var inner := DropLeadingSlash(customPath);
    DropSlashes(customPath);
    var cp := DropTrailingSlash(inner);
    DropSlashes(inner);
    if cp != [] {
      assert cp[0] == inner[0];
      ConcatNoDoubleSlash("/", cp);
      var mid := "/" + cp;
      assert mid[|mid| - 1] == cp[|cp| - 1];
    }
  }

  /** Joining clean parts, each slash-free at the joints, gives a clean link. */
  lemma JoinClean(base: string, mid: string, fp: string)
    requires NoDoubleSlash(base) && NoDoubleSlash(mid) && NoDoubleSlash(fp)
    requires base == [] || base[|base| - 1] != '/'
    requires mid == [] || mid[|mid| - 1] != '/'
    requires fp == [] || fp[0] != '/'
    ensures NoDoubleSlash(base + mid + "/" + fp)
  {
    ConcatNoDoubleSlash(base, mid);
    var front := base + mid;
    if mid != [] {
      assert front[|front| - 1] == mid[|mid| - 1];
    } else if base != [] {
      assert front[|front| - 1] == base[|base| - 1];
    }
    ConcatNoDoubleSlash(front, "/");
    ConcatNoDoubleSlash(front + "/", fp);
  }

  /**
   * The joiner puts exactly one slash between the parts: when none of the
   * prefix, the custom path and the file path holds "//", the link holds
   * none either.
   */
  lemma FileUrlSingleSlashes(storage: StorageConfig, filePath: string)
    requires LinkFor(storage, filePath).Some?
    requires NoDoubleSlash(storage.accessUrlPrefix) && NoDoubleSlash(storage.customPath)
    requires NoDoubleSlash(filePath)
    ensures NoDoubleSlash(LinkFor(storage, filePath).value)
  {
    DropSlashes(storage.accessUrlPrefix);
    CustomSegmentClean(storage.customPath);
    DropSlashes(filePath);
    JoinClean(DropTrailingSlash(storage.accessUrlPrefix), CustomSegment(storage.customPath), DropLeadingSlash(filePath));
  }

  /** The link starts with the prefix (less one trailing slash) and ends with one slash and the file path. */
  lemma FileUrlEnds(storage: StorageConfig, filePath: string)
    requires LinkFor(storage, filePath).Some?
    ensures EndsWith(LinkFor(storage, filePath).value, "/" + DropLeadingSlash(filePath))
    ensures StartsWith(LinkFor(storage, filePath).value, DropTrailingSlash(storage.accessUrlPrefix))
  {
    var base := DropTrailingSlash(storage.accessUrlPrefix);
    var front := base + CustomSegment(storage.customPath);
    var tail := "/" + DropLeadingSlash(filePath);
    var url := LinkFor(storage, filePath).value;
    assert url == front + tail;
    assert url[|url| - |tail|..] == tail;
    assert url[..|base|] == base;
  }

  // ---------------------------------------------------------------------------
  // The file cell

  /** A file cell shows only for backup (not sync) runs that have a file path. */
  predicate ShowsFile(runType: string, filePath: string) {
    runType != "sync" && filePath != ""
  }

  /** The name shown: the last "/"-separated segment, or the whole path when that segment is empty. */
  function FileName(filePath: string): (r: string)
    ensures EndsWith(filePath, r)
    ensures r == filePath || '/' !in r
    ensures filePath != "" ==> r != ""
  {
    var last := LastPiece(filePath, '/');
    if last == "" then filePath else last
  }

  /** A path that does not end with a slash is named by its last segment; one that does, by itself. */
  lemma FileNameCases(filePath: string)
    ensures EndsWith(filePath, "/") ==> FileName(filePath) == filePath
    ensures !EndsWith(filePath, "/") ==> FileName(filePath) == LastPiece(filePath, '/')
  {
    var last := LastPiece(filePath, '/');
    assert last == [] || last[|last| - 1] == filePath[|filePath| - 1];
    LastPieceEmpty(filePath, '/');
  }
}
