/** The string steps of an invocation: the blob name from the event URL, the
    timestamped archive name (two variants) and the SAS copy-source URL. */
module Naming {
  import opened Common
  import opened Strings

  /** The blob name in a blob URL: the text after the last `/{container}/` cut
      (as `split` finds the cuts), or else after the last `/`. */
  function ExtractBlobName(url: string, container: string): (name: string)
    ensures IsSuffix(name, url)
    ensures Contains(url, "/" + container + "/") ==>
      !Contains(name, "/" + container + "/") && PrecededBy(url, name, "/" + container + "/")
    ensures !Contains(url, "/" + container + "/") ==>
      !Contains(name, "/") && (Contains(url, "/") ==> PrecededBy(url, name, "/")) && (!Contains(url, "/") ==> name == url)
  {
    var marker := "/" + container + "/";
    SplitLastBoundary(url, marker);
    SplitLastBoundary(url, "/");
    if Contains(url, marker) then SplitLast(url, marker) else SplitLast(url, "/")
  }

  /** The blob path the URL names: the text after the first `/{container}/`
      (`split(marker, 1)[1]`), or else after the last `/`. Unlike
      `ExtractBlobName`, it keeps a path that itself contains the marker. */
  function BlobPathAfterContainer(url: string, container: string): (name: string)
    ensures IsSuffix(name, url)
    ensures Contains(url, "/" + container + "/") ==>
      && PrecededBy(url, name, "/" + container + "/")
      && forall k :: 0 <= k < |url| - |name| - |"/" + container + "/"| ==> !OccursAt(url, "/" + container + "/", k)
    ensures !Contains(url, "/" + container + "/") ==> name == ExtractBlobName(url, container)
  {
    var marker := "/" + container + "/";
    if Contains(url, marker) then
      var i := FirstOccurrence(url, marker);
      SeparatorAtCut(url, i, marker);
      url[i + |marker|..]
    else ExtractBlobName(url, container)
  }

  /** A URL of the form `{host}/{container}/{path}`, where the container
      segment first occurs right after the host, names `path`, whatever it
      contains. */
  lemma BlobPathAfterContainerIsPath(host: string, container: string, path: string)
    requires !Contains(host + "/" + container, "/" + container + "/")
    ensures BlobPathAfterContainer(host + "/" + container + "/" + path, container) == path
  {
    var marker := "/" + container + "/";
    var lead := host + "/" + container;
    var url := host + "/" + container + "/" + path;
    assert url == host + marker + path;
    assert url[|host|..|host| + |marker|] == marker;
    assert OccursAt(url, marker, |host|);
    forall k | 0 <= k < |host| ensures !OccursAt(url, marker, k) {
      assert url[k..k + |marker|] == lead[k..k + |marker|];
      assert !OccursAt(lead, marker, k);
    }
    var i := FirstOccurrence(url, marker);
    assert i == |host|;
    assert url[i + |marker|..] == path;
  }

  /** `split` and the blob path agree whenever the path holds no second
      container segment. */
  lemma ExtractBlobNameIsPathWithoutNestedMarker(url: string, container: string)
    requires !Contains(BlobPathAfterContainer(url, container), "/" + container + "/")
    ensures ExtractBlobName(url, container) == BlobPathAfterContainer(url, container)
  {
    var marker := "/" + container + "/";
    if Contains(url, marker) {
      var j := FirstOccurrence(url, marker) + |marker|;
      assert SplitLast(url, marker) == SplitLast(url[j..], marker);
    }
  }

  /** As written, a blob path holding a second container segment is cut at
      it: the name extracted is not the path the URL names. */
  lemma ExtractBlobNameCutsNestedPath(host: string, container: string, path: string)
    requires !Contains(host + "/" + container, "/" + container + "/")
    requires Contains(path, "/" + container + "/")
    ensures BlobPathAfterContainer(host + "/" + container + "/" + path, container) == path
    ensures ExtractBlobName(host + "/" + container + "/" + path, container) != path
  {
    BlobPathAfterContainerIsPath(host, container, path);
    MarkerFollowsHost(host, container, path);
  }

  /** The container segment occurs right after the host. */
  lemma MarkerFollowsHost(host: string, container: string, path: string)
    ensures OccursAt(host + "/" + container + "/" + path, "/" + container + "/", |host|)
  {
    var marker := "/" + container + "/";
    var url := host + "/" + container + "/" + path;
    assert url == host + marker + path;
    assert url[|host|..|host| + |marker|] == marker;
  }

  /** The concrete case: blob `a/p/b` of container `p` is extracted as `b`,
      since `split("/p/")` cuts the URL twice. */
  lemma NestedPathExample()
    ensures BlobPathAfterContainer("h/p/a/p/b", "p") == "a/p/b"
    ensures ExtractBlobName("h/p/a/p/b", "p") == "b"
  {
    NestedPathExampleSplit();
    ExtractBlobNameIsSplitAtMarker("h/p/a/p/b", "p");
    NestedPathExampleSegments();
    ExtractBlobNameCutsNestedPath("h", "p", "a/p/b");
  }

  /** Where the URL holds the container segment, the name is the last piece
      of `split` at that segment. */
  lemma ExtractBlobNameIsSplitAtMarker(url: string, container: string)
    requires Contains(url, "/" + container + "/")
    ensures ExtractBlobName(url, container) == SplitLast(url, "/" + container + "/")
  {
  }

  /** The example's URL is `h`, the segment `/p/`, then `a/p/b`. */
  lemma NestedPathExampleSegments()
    ensures "h" + "/" + "p" + "/" + "a/p/b" == "h/p/a/p/b"
    ensures !Contains("h" + "/" + "p", "/" + "p" + "/") && Contains("a/p/b", "/" + "p" + "/")
  {
    var marker := "/p/";
    assert "/" + "p" + "/" == marker && "h" + "/" + "p" == "h/p";
    assert "h/p"[0..3][0] != marker[0];
    assert "a/p/b"[1..4] == marker;
    assert OccursAt("a/p/b", marker, 1);
  }

  /** The two cuts `split("/p/")` makes in the example's URL, at index 1 of
      the URL and at index 1 of what follows the first cut. */
  lemma NestedPathExampleSplit()
    ensures Contains("h/p/a/p/b", "/" + "p" + "/") && SplitLast("h/p/a/p/b", "/" + "p" + "/") == "b"
  {
    var marker := "/p/";
    assert "/" + "p" + "/" == marker;
    var url := "h/p/a/p/b";
    assert url[1..4] == marker && OccursAt(url, marker, 1);
    assert url[0..3][0] != marker[0];
    assert FirstOccurrence(url, marker) == 1;
    assert url[4..] == "a/p/b";
    assert "a/p/b"[1..4] == marker && OccursAt("a/p/b", marker, 1);
    assert "a/p/b"[0..3][0] != marker[0];
    assert FirstOccurrence("a/p/b", marker) == 1;
    assert "a/p/b"[4..] == "b";
    assert !Contains("b", marker);
  }

  /** `base, ext = name.rsplit('.', 1)`: the text before and after the last dot. */
  function SplitAtLastDot(name: string): (parts: (string, string))
    ensures '.' in name ==> parts.0 + "." + parts.1 == name && '.' !in parts.1
    ensures '.' !in name ==> parts == (name, "")
  {
    match LastIndexOf(name, '.')
    case None => (name, "")
    case Some(i) =>
      assert name == name[..i] + "." + name[i + 1..];
      (name[..i], name[i + 1..])
  }

  /** `i` is the position of the last dot in `name`. */
  predicate IsLastDot(name: string, i: int) {
    0 <= i < |name| && name[i] == '.' && '.' !in name[i + 1..]
  }

  /** The `(base, ext)` split of function_code: `ext` is `'.'` and the text
      after the last dot, or empty when the name has no dot. */
  function SplitExtension(name: string): (parts: (string, string))
    ensures parts.0 + parts.1 == name
    ensures parts.1 == "" <==> '.' !in name
    ensures parts.1 != "" ==> parts.1[0] == '.' && '.' !in parts.1[1..]
  {
    if '.' in name then
      var (base, ext) := SplitAtLastDot(name);
      assert ("." + ext)[1..] == ext;
      (base, "." + ext)
    else (name, "")
  }

  /** The archive name of function_code: `{subfolder}/{base}_{timestamp}{ext}`;
      the extension keeps its dot and a name without a dot gets none. */
  function ArchiveName(subfolder: string, blobName: string, timestamp: string): (r: string)
    ensures '.' !in blobName ==> r == subfolder + "/" + blobName + "_" + timestamp
    ensures '.' in blobName ==>
      exists i :: IsLastDot(blobName, i) && r == subfolder + "/" + blobName[..i] + "_" + timestamp + blobName[i..]
  {
    var (base, ext) := SplitExtension(blobName);
    var r := subfolder + "/" + base + "_" + timestamp + ext;
    if '.' in blobName then
      var i := |base|;
      assert blobName[..i] == base && blobName[i..] == ext;
      assert blobName[i + 1..] == ext[1..];
      r
    else r
  }

  /** The archive name in terms of the `(base, ext)` split. */
  lemma ArchiveNameOfSplit(subfolder: string, blobName: string, timestamp: string)
    ensures var (base, ext) := SplitExtension(blobName);
      ArchiveName(subfolder, blobName, timestamp) == subfolder + "/" + base + "_" + timestamp + ext
  {
  }

  /** Two invocations for the same blob at different times (timestamps of the
      same fixed width) produce different archive names. */
  lemma DistinctTimestampsDistinctNames(subfolder: string, blobName: string, ts1: string, ts2: string)
    requires |ts1| == |ts2| && ts1 != ts2
    ensures ArchiveName(subfolder, blobName, ts1) != ArchiveName(subfolder, blobName, ts2)
  {
    var (base, ext) := SplitExtension(blobName);
    var lead := subfolder + "/" + base + "_";
    ArchiveNameOfSplit(subfolder, blobName, ts1);
    ArchiveNameOfSplit(subfolder, blobName, ts2);
    var n1, n2 := lead + ts1 + ext, lead + ts2 + ext;
    assert n1[|lead|..|lead| + |ts1|] == ts1;
    assert n2[|lead|..|lead| + |ts2|] == ts2;
  }

  /** The archive name of MoveToArchive: `{subfolder}/{base}_{timestamp}.{ext}`
      when the text after the last dot is non-empty, else `{subfolder}/{base}_{timestamp}`. */
  function ArchiveNameTrimmed(subfolder: string, blobName: string, timestamp: string): (r: string)
    ensures '.' !in blobName ==> r == subfolder + "/" + blobName + "_" + timestamp
    ensures '.' in blobName ==>
      exists i :: IsLastDot(blobName, i) && r == subfolder + "/" + blobName[..i] + "_" + timestamp + (if i + 1 == |blobName| then "" else blobName[i..])
  {
    var (base, ext) := SplitAtLastDot(blobName);
    var r := if ext != "" then subfolder + "/" + base + "_" + timestamp + "." + ext
      else subfolder + "/" + base + "_" + timestamp;
    if '.' in blobName then
      var i := |base|;
      assert blobName[..i] == base && blobName[i] == '.' && blobName[i + 1..] == ext;
      assert ext != "" ==> blobName[i..] == "." + ext;
      r
    else r
  }

  /** The two namings agree except on a name ending in a dot, which only
      function_code keeps. */
  lemma NamingVariantsDiffer(subfolder: string, blobName: string, timestamp: string)
    ensures var trailingDot := |blobName| > 0 && blobName[|blobName| - 1] == '.';
      && (!trailingDot ==> ArchiveNameTrimmed(subfolder, blobName, timestamp) == ArchiveName(subfolder, blobName, timestamp))
      && (trailingDot ==> ArchiveName(subfolder, blobName, timestamp) == ArchiveNameTrimmed(subfolder, blobName, timestamp) + ".")
  {
    if '.' in blobName {
      var i := LastIndexOf(blobName, '.').value;
      assert SplitAtLastDot(blobName) == (blobName[..i], blobName[i + 1..]);
      if i + 1 == |blobName| {
        assert blobName == blobName[..i] + ".";
      } else {
        assert blobName[i..] == "." + blobName[i + 1..];
      }
    }
  }

  /** `"?"` and the shared access signature appended to the source URL: the text
      after the last `SharedAccessSignature=` in the connection string, or the
      whole string when the marker is absent. */
  function SasUrl(sourceUrl: string, connectionString: string): (r: string)
    ensures |r| > |sourceUrl| && r[..|sourceUrl| + 1] == sourceUrl + "?"
    ensures IsSuffix(r[|sourceUrl| + 1..], connectionString)
    ensures !Contains(r[|sourceUrl| + 1..], SasMarker)
    ensures !Contains(connectionString, SasMarker) ==> r == sourceUrl + "?" + connectionString
    ensures Contains(connectionString, SasMarker) ==> PrecededBy(connectionString, r[|sourceUrl| + 1..], SasMarker)
  {
    SplitLastBoundary(connectionString, SasMarker);
    var sas := SplitLast(connectionString, SasMarker);
    var r := sourceUrl + "?" + sas;
    assert r[|sourceUrl| + 1..] == sas;
    r
  }

  const SasMarker := "SharedAccessSignature="
}
