/**
 * Charta file names: a charta with id `id` is stored in the file `id + "." + type`, and the services
 * recover the ids of the chartas already on disk by cutting each file name at its last '.'.
 */
module FileNames {
  import opened Wrappers

  type Id = string

  /** The name of the file that holds charta `id` in the image format `imageType`. */
  function FileName(id: Id, imageType: string): string {
    id + "." + imageType
  }

  /** `s.lastIndexOf(c)`: the index of the last occurrence of `c` in `s`, or -1 when there is none. */
  function LastIndexOf(s: string, c: char): (r: int)
    ensures -1 <= r < |s|
    ensures r == -1 <==> c !in s
    ensures r >= 0 ==> s[r] == c && forall k :: r < k < |s| ==> s[k] != c
  {
    if |s| == 0 then -1
    else if s[|s| - 1] == c then |s| - 1
    else
      var r := LastIndexOf(s[..|s| - 1], c);
      assert c in s[..|s| - 1] ==> c in s;
      assert c in s ==> c in s[..|s| - 1] by {
        if c in s {
          var i :| 0 <= i < |s| && s[i] == c;
          assert s[..|s| - 1][i] == c;
        }
      }
      r
  }

  /**
   * `fileName.substring(0, fileName.lastIndexOf('.'))`: the part before the last '.'. A name without
   * a '.' makes the substring call throw, which is `None` here.
   */
  function StripExtension(fileName: string): (r: Option<Id>)
    ensures r.None? <==> '.' !in fileName
    ensures r.Some? ==>
              && |r.value| < |fileName| && fileName[..|r.value|] == r.value
              && fileName[|r.value|] == '.' && '.' !in fileName[|r.value| + 1..]
  {
    var i := LastIndexOf(fileName, '.');
    if i < 0 then None
    else
      Some(fileName[..i])
  }

  /** Cutting a charta's file name at its last '.' gives back its id, whatever the id contains. */
  lemma StripFileName(id: Id, imageType: string)
    requires '.' !in imageType
    ensures StripExtension(FileName(id, imageType)) == Some(id)
  {
    var name := FileName(id, imageType);
    assert name[|id|] == '.';
    var i := LastIndexOf(name, '.');
    assert i == |id|;
    assert name[..i] == id;
  }

  /**
   * The ids a discovery loop collects from the listed file names, in order. The loop stops (with an
   * exception) at the first name without a '.'; the names before it have already been collected.
   */
  function DiscoveredIds(names: seq<string>): (ids: seq<Id>)
    ensures |ids| <= |names|
    ensures forall k :: 0 <= k < |ids| ==> StripExtension(names[k]) == Some(ids[k])
    ensures |ids| < |names| ==> StripExtension(names[|ids|]).None?
  {
    if names == [] then []
    else match StripExtension(names[0])
      case None => []
      case Some(id) => [id] + DiscoveredIds(names[1..])
  }

  /** Every name of the listing has a '.', so the discovery loop runs to the end. */
  predicate AllHaveExtension(names: seq<string>) {
    forall k :: 0 <= k < |names| ==> '.' in names[k]
  }

  lemma {:induction false} DiscoveredIdsSnoc(names: seq<string>, name: string)
    requires AllHaveExtension(names)
    ensures DiscoveredIds(names + [name]) ==
              DiscoveredIds(names) + (match StripExtension(name) case None => [] case Some(id) => [id])
  {
    if names == [] {
      assert names + [name] == [name];
    } else {
      assert (names + [name])[1..] == names[1..] + [name];
      DiscoveredIdsSnoc(names[1..], name);
    }
  }

  /** One step of a discovery loop: the name at `k` has a '.', and its id follows the ones before it. */
  lemma DiscoveredIdsStep(names: seq<string>, k: nat)
    requires k < |names| && AllHaveExtension(names[..k]) && StripExtension(names[k]).Some?
    ensures AllHaveExtension(names[..k + 1])
    ensures DiscoveredIds(names[..k + 1]) == DiscoveredIds(names[..k]) + [StripExtension(names[k]).value]
  {
    assert names[..k + 1] == names[..k] + [names[k]];
    DiscoveredIdsSnoc(names[..k], names[k]);
  }

  /** Discovery stops at a name without a '.': nothing after it is collected. */
  lemma {:induction false} DiscoveredIdsStop(names: seq<string>, k: nat)
    requires k < |names| && AllHaveExtension(names[..k]) && '.' !in names[k]
    ensures DiscoveredIds(names) == DiscoveredIds(names[..k])
  {
    if k == 0 {
      assert names[..k] == [];
    } else {
      assert '.' in names[..k][0];
      assert names[1..][..k - 1] == names[..k][1..];
      DiscoveredIdsStop(names[1..], k - 1);
    }
  }

  /** Listing the files of chartas `ids` and discovering them gives back exactly `ids`. */
  lemma {:induction false} DiscoverFileNames(ids: seq<Id>, imageType: string)
    requires '.' !in imageType
    ensures DiscoveredIds(seq(|ids|, k requires 0 <= k < |ids| => FileName(ids[k], imageType))) == ids
  {
    var names := seq(|ids|, k requires 0 <= k < |ids| => FileName(ids[k], imageType));
    if ids != [] {
      StripFileName(ids[0], imageType);
      var rest := seq(|ids| - 1, k requires 0 <= k < |ids| - 1 => FileName(ids[1..][k], imageType));
      assert names[1..] == rest;
      DiscoverFileNames(ids[1..], imageType);
    }
  }
}
