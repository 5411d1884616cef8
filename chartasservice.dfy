/**
 * The chartas service (`DefaultChartasService`): the list of known charta ids (`pathsToChartas`),
 * filled from the chartas folder at start-up, and the operations that create a charta and put a
 * fragment on one. The chartas folder is a map from id to the decoded image of its file; the
 * outcome of every file read and write is passed in.
 */
module ChartasServices {
  import opened Wrappers
  import opened Rasters
  import opened FileNames
  import opened Compositing
  import opened Failures

  class ChartasService {
    /** `pathsToChartas`: the ids of the chartas known to the service, in discovery order. */
    var pathsToChartas: seq<Id>
    /** The chartas folder, by id. */
    var files: map<Id, Raster>

    ghost predicate Valid()
      reads this
    {
      forall id :: id in files ==> files[id].Valid()
    }

    constructor (folder: map<Id, Raster>)
      requires forall id :: id in folder ==> folder[id].Valid()
      ensures Valid() && pathsToChartas == [] && files == folder
    {
      pathsToChartas := [];
      files := folder;
    }

    /**
     * `discoverChartas`: appends the id of every listed file name, the part before its last '.'.
     * A name without a '.' throws (`completed` is false) after the ids before it were appended.
     */
    method DiscoverChartas(listing: seq<string>) returns (completed: bool)
      modifies this
      ensures completed == AllHaveExtension(listing)
      ensures pathsToChartas == old(pathsToChartas) + DiscoveredIds(listing)
      ensures files == old(files)
    {
      var k := 0;
      while k < |listing|
        invariant 0 <= k <= |listing|
        invariant AllHaveExtension(listing[..k])
        invariant pathsToChartas == old(pathsToChartas) + DiscoveredIds(listing[..k])
        invariant files == old(files)
      {
        var fileName := listing[k];
        match StripExtension(fileName) {
          case None =>
            DiscoveredIdsStop(listing, k);
            return false;
          case Some(id) =>
            pathsToChartas := pathsToChartas + [id];
            DiscoveredIdsStep(listing, k);
        }
        k := k + 1;
      }
      assert listing[..k] == listing;
      completed := true;
    }

    /**
     * `createCharta`: writes a black `width` x `height` image to the file of the new charta `id`
     * and returns `id`. The id is NOT added to `pathsToChartas`. A failed write is modelled as
     * leaving the folder unchanged; the empty or truncated file that `Files.newOutputStream` may
     * already have created is not modelled.
     */
    method CreateCharta(id: Id, width: int, height: int, writeFails: bool) returns (r: Result<Id, Failure>)
      requires Valid()
      modifies this
      ensures Valid()
      ensures pathsToChartas == old(pathsToChartas)
      ensures (width <= 0 || height <= 0) ==> r == Err(IllegalArgument)
      ensures width > 0 && height > 0 ==> r == if writeFails then Err(ChartaIO) else Ok(id)
      ensures files == if r.Ok? then old(files)[id := Blank(width, height)] else old(files)
    {
      if width <= 0 || height <= 0 {
        return Err(IllegalArgument);
      }
      var bmp := Blank(width, height);
      if writeFails {
        return Err(ChartaIO);
      }
      files := files[id := bmp];
      r := Ok(id);
    }

    /**
     * `createCharta` as evidently intended: as above, but a created charta also becomes a known id,
     * so that fragments can be put on it.
     */
    method CreateAndRegisterCharta(id: Id, width: int, height: int, writeFails: bool) returns (r: Result<Id, Failure>)
      requires Valid()
      modifies this
      ensures Valid()
      ensures pathsToChartas == if r.Ok? then old(pathsToChartas) + [id] else old(pathsToChartas)
      ensures (width <= 0 || height <= 0) ==> r == Err(IllegalArgument)
      ensures width > 0 && height > 0 ==> r == if writeFails then Err(ChartaIO) else Ok(id)
      ensures files == if r.Ok? then old(files)[id := Blank(width, height)] else old(files)
      ensures r.Ok? ==> id in pathsToChartas && id in files
    {
      r := CreateCharta(id, width, height, writeFails);
      if r.Ok? {
        pathsToChartas := pathsToChartas + [id];
      }
    }

    /**
     * `putFragment`: for a known id, decodes the fragment (`fragmentData`, `None` when decoding
     * fails), reads the charta's file, draws the fragment over it at (x, y) and writes the result
     * back. An unknown id throws `ChartaNotFound` and nothing is read or written. The requested
     * `width` and `height` are not used.
     */
    method PutFragment(id: Id, x: int, y: int, width: int, height: int,
                       fragmentData: Option<Raster>, readFails: bool, writeFails: bool)
      returns (r: Result<(), Failure>)
      requires Valid()
      requires fragmentData.Some? ==> fragmentData.value.Valid()
      modifies this
      ensures Valid()
      ensures pathsToChartas == old(pathsToChartas)
      ensures id !in pathsToChartas ==> r == Err(ChartaNotFound)
      ensures id in pathsToChartas ==>
                r == if fragmentData.None? || readFails || id !in old(files) || writeFails then Err(ChartaIO) else Ok(())
      ensures r.Err? ==> files == old(files)
      ensures r.Ok? ==> && id in old(files) && files.Keys == old(files).Keys
                        && (forall other :: other in files && other != id ==> files[other] == old(files)[other])
                        && DrawnOver(old(files)[id], x, y, fragmentData.value, files[id])
    {
      if id in pathsToChartas {
        if fragmentData.None? {
          return Err(ChartaIO);
        }
        var fragment := fragmentData.value;
        // drawFragmentOnCharta: ImageIO.read(chartaFile) fails on a missing or unreadable file
        if readFails || id !in files {
          return Err(ChartaIO);
        }
        var fragmentOnCharta := DrawFragmentOnCharta(files[id], x, y, fragment);
        if writeFails {
          return Err(ChartaIO);
        }
        files := files[id := fragmentOnCharta];
        r := Ok(());
      } else {
        r := Err(ChartaNotFound);
      }
    }
  }

  /**
   * As written, a charta made by `createCharta` is unknown to `putFragment` until the service is
   * restarted and rediscovers it: putting a fragment on it right away throws `ChartaNotFound`.
   */
  method CreateThenPutAsWritten(id: Id, fragment: Raster) returns (created: Result<Id, Failure>, put: Result<(), Failure>)
    requires fragment.Valid()
    ensures created == Ok(id)
    ensures put == Err(ChartaNotFound)
  {
    var service := new ChartasService(map[]);
    created := service.CreateCharta(id, 1, 1, false);
    put := service.PutFragment(id, 0, 0, fragment.width, fragment.height, Some(fragment), false, false);
  }

  /** With the created id registered, the same put succeeds and paints the fragment at (0, 0). */
  method CreateThenPutRegistered(id: Id, fragment: Raster)
    returns (created: Result<Id, Failure>, put: Result<(), Failure>, pixel: int)
    requires fragment.Valid() && fragment.width >= 1 && fragment.height >= 1
    ensures created == Ok(id)
    ensures put == Ok(())
    ensures pixel == fragment.At(0, 0)
  {
    var service := new ChartasService(map[]);
    created := service.CreateAndRegisterCharta(id, 1, 1, false);
    put := service.PutFragment(id, 0, 0, fragment.width, fragment.height, Some(fragment), false, false);
    pixel := service.files[id].At(0, 0);
  }
}
