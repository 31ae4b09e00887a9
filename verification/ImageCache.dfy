// The in-memory image cache: least recently used images are purged when the
// bytes in use exceed the capacity.
module ImageCaches {

  const UINT64_MAX := 0xffff_ffff_ffff_ffff

  class CachedImage {
    const image: int
    const identifier: string
    const totalBytes: nat
    var lastAccessDate: int

    constructor (image: int, identifier: string, totalBytes: nat, now: int)
      ensures this.image == image && this.identifier == identifier && this.totalBytes == totalBytes
      ensures lastAccessDate == now
    {
      this.image, this.identifier, this.totalBytes, lastAccessDate := image, identifier, totalBytes, now;
    }

    method AccessImage(now: int) returns (image: int)
      modifies this
      ensures image == this.image && lastAccessDate == now
    {
      lastAccessDate := now;
      image := this.image;
    }
  }

  type Images = map<string, CachedImage>

  // ----- Accounting -----

  ghost function Total(m: Images): nat
    decreases |m|
  {
    if m == map[] then 0
    else
      var k :| k in m;
      m[k].totalBytes + Total(m - {k})
  }

  // Any image can be taken out first.
  lemma {:induction false} TotalWithout(m: Images, k: string)
    requires k in m
    ensures Total(m) == m[k].totalBytes + Total(m - {k})
    decreases |m|
  {
    var j :| j in m && Total(m) == m[j].totalBytes + Total(m - {j});
    if j != k {
      TotalWithout(m - {j}, k);
      TotalWithout(m - {k}, j);
      assert m - {j} - {k} == m - {k} - {j};
    }
  }

  lemma TotalWith(m: Images, k: string, c: CachedImage)
    requires k !in m
    ensures Total(m[k := c]) == Total(m) + c.totalBytes
  {
    TotalWithout(m[k := c], k);
    assert m[k := c] - {k} == m;
  }

  function Bytes(cs: seq<CachedImage>): nat {
    if cs == [] then 0 else Bytes(cs[..|cs| - 1]) + cs[|cs| - 1].totalBytes
  }

  // ----- Purging -----

  // The images of a cache, each once, least recently used first.
  ghost predicate LeastRecentFirst(cs: seq<CachedImage>, m: Images)
    reads cs
  {
    && (forall c :: c in cs ==> c in m.Values) && (forall c :: c in m.Values ==> c in cs)
    && (forall i, j :: 0 <= i < j < |cs| ==> cs[i] != cs[j] && cs[i].lastAccessDate <= cs[j].lastAccessDate)
  }

  function Identifiers(cs: seq<CachedImage>): set<string> {
    set c | c in cs :: c.identifier
  }

  // n is the least number of images whose bytes reach what is to be purged.
  predicate JustEnough(cs: seq<CachedImage>, toPurge: nat, n: nat) {
    n <= |cs| && Bytes(cs[..n]) >= toPurge && forall i :: 0 <= i < n ==> Bytes(cs[..i]) < toPurge
  }

  lemma NotEnough(cs: seq<CachedImage>, toPurge: nat, n: nat, i: nat)
    requires JustEnough(cs, toPurge, n) && i < n
    ensures Bytes(cs[..i]) < toPurge
  {
  }

  // What is left of a cache was used no earlier than what was taken from the front.
  lemma KeptAreLater(m: Images, cs: seq<CachedImage>, n: nat)
    requires LeastRecentFirst(cs, m) && n <= |cs| && forall k :: k in m ==> m[k].identifier == k
    ensures forall i, k :: 0 <= i < n && k in m - Identifiers(cs[..n])
              ==> cs[i].lastAccessDate <= m[k].lastAccessDate
  {
    forall i, k | 0 <= i < n && k in m - Identifiers(cs[..n])
      ensures cs[i].lastAccessDate <= m[k].lastAccessDate
    {
      assert m[k] in m.Values;
      var j :| 0 <= j < |cs| && cs[j] == m[k];
      assert cs[j] !in cs[..n];
    }
  }

  lemma {:induction false} BytesTaken(m: Images, cs: seq<CachedImage>, n: nat)
    requires n <= |cs| && forall i :: 0 <= i < n ==> cs[i].identifier in m && m[cs[i].identifier] == cs[i]
    requires forall i, j :: 0 <= i < j < n ==> cs[i] != cs[j]
    ensures Total(m) == Bytes(cs[..n]) + Total(m - Identifiers(cs[..n]))
  {
    if n == 0 {
      assert m - Identifiers(cs[..0]) == m;
    } else {
      var c := cs[n - 1];
      BytesTaken(m, cs, n - 1);
      assert cs[..n][..n - 1] == cs[..n - 1] && cs[..n] == cs[..n - 1] + [c];
      var left := m - Identifiers(cs[..n - 1]);
      assert forall i :: 0 <= i < n - 1 ==> cs[i].identifier != c.identifier;
      TotalWithout(left, c.identifier);
      assert left - {c.identifier} == m - Identifiers(cs[..n]);
    }
  }

  lemma AllBytes(m: Images, cs: seq<CachedImage>)
    requires forall k :: k in m ==> m[k].identifier == k && m[k] in cs
    requires forall c :: c in cs ==> c in m.Values
    requires forall i, j :: 0 <= i < j < |cs| ==> cs[i] != cs[j]
    ensures Bytes(cs) == Total(m)
  {
    forall i | 0 <= i < |cs|
      ensures cs[i].identifier in m && m[cs[i].identifier] == cs[i]
    {
      assert cs[i] in m.Values;
    }
    BytesTaken(m, cs, |cs|);
    assert cs[..|cs|] == cs;
    assert m - Identifiers(cs) == map[];
  }

  lemma NoneYet(images: seq<CachedImage>)
    ensures Bytes(images[..0]) == 0 && Identifiers(images[..0]) == {}
  {
  }

  lemma OneMorePurged(images: seq<CachedImage>, i: nat)
    requires i < |images|
    ensures Bytes(images[..i + 1]) == Bytes(images[..i]) + images[i].totalBytes
    ensures Identifiers(images[..i + 1]) == Identifiers(images[..i]) + {images[i].identifier}
  {
    assert images[..i + 1] == images[..i] + [images[i]];
    assert images[..i + 1][..i] == images[..i];
  }

  lemma AllInOrder(m: Images, cs: seq<CachedImage>)
    requires LeastRecentFirst(cs, m) && forall k :: k in m ==> m[k].identifier == k
    ensures Bytes(cs) == Total(m)
  {
    assert forall k :: k in m ==> m[k] in m.Values;
    AllBytes(m, cs);
  }

  // What is left when the first n are taken out, and when fewer are.
  lemma RunIsPurged(m: Images, cs: seq<CachedImage>, toPurge: nat, n: nat)
    requires LeastRecentFirst(cs, m) && n <= |cs| && JustEnough(cs, toPurge, n)
    requires forall k :: k in m ==> m[k].identifier == k
    ensures Total(m) == Bytes(cs[..n]) + Total(m - Identifiers(cs[..n]))
    ensures forall i :: 0 <= i < n ==> Total(m - Identifiers(cs[..i])) > Total(m) - toPurge
    ensures forall i, k :: 0 <= i < n && k in m - Identifiers(cs[..n])
              ==> cs[i].lastAccessDate <= m[k].lastAccessDate
  {
    hide Total;
    hide Bytes;
    hide Identifiers;
    hide JustEnough;
    assert forall i :: 0 <= i < |cs| ==> cs[i] in m.Values;
    KeptAreLater(m, cs, n);
    BytesTaken(m, cs, n);
    forall i | 0 <= i < n
      ensures Total(m - Identifiers(cs[..i])) > Total(m) - toPurge
    {
      BytesTaken(m, cs, i);
      NotEnough(cs, toPurge, n, i);
    }
  }

  class AutoPurgingImageCache {
    const memoryCapacity: nat
    const preferredMemoryUsageAfterPurge: nat
    var cachedImages: Images
    var currentMemoryUsage: nat

    ghost predicate Valid()
      reads this
    {
      && preferredMemoryUsageAfterPurge <= memoryCapacity
      && (forall k :: k in cachedImages ==> cachedImages[k].identifier == k)
      && currentMemoryUsage == Total(cachedImages) <= UINT64_MAX
    }

    constructor (memoryCapacity: nat, preferredMemoryUsageAfterPurge: nat)
      requires memoryCapacity >= preferredMemoryUsageAfterPurge
      ensures Valid() && cachedImages == map[]
      ensures this.memoryCapacity == memoryCapacity
      ensures this.preferredMemoryUsageAfterPurge == preferredMemoryUsageAfterPurge
    {
      this.memoryCapacity, this.preferredMemoryUsageAfterPurge := memoryCapacity, preferredMemoryUsageAfterPurge;
      cachedImages, currentMemoryUsage := map[], 0;
    }

    // The first block of add; like the source's arithmetic it does not go beyond
    // 64 bits.
    method Add(image: int, identifier: string, totalBytes: nat, now: int)
      requires Valid() && Total(cachedImages - {identifier}) + totalBytes <= UINT64_MAX
      modifies this
      ensures Valid() && identifier in cachedImages && fresh(cachedImages[identifier])
      ensures cachedImages == old(cachedImages)[identifier := cachedImages[identifier]]
      ensures var c := cachedImages[identifier];
        c.image == image && c.totalBytes == totalBytes && c.lastAccessDate == now
      ensures currentMemoryUsage == Total(old(cachedImages) - {identifier}) + totalBytes
    {
      var cachedImage := new CachedImage(image, identifier, totalBytes, now);
      ghost var others := cachedImages - {identifier};
      if identifier in cachedImages {
        TotalWithout(cachedImages, identifier);
        currentMemoryUsage := currentMemoryUsage - cachedImages[identifier].totalBytes;
      } else {
        assert others == cachedImages;
      }
      TotalWith(others, identifier, cachedImage);
      assert cachedImages[identifier := cachedImage] == others[identifier := cachedImage];
      cachedImages := cachedImages[identifier := cachedImage];
      currentMemoryUsage := currentMemoryUsage + cachedImage.totalBytes;
    }

    method SortedImages() returns (cs: seq<CachedImage>)
      requires Valid()
      ensures LeastRecentFirst(cs, cachedImages)
    {
      cs := [];
      var rest := cachedImages.Values;
      while rest != {}
        invariant rest <= cachedImages.Values
        invariant forall c :: c in cachedImages.Values <==> c in cs || c in rest
        invariant forall c, d :: c in cs && d in rest ==> c != d && c.lastAccessDate <= d.lastAccessDate
        invariant forall i, j :: 0 <= i < j < |cs| ==> cs[i] != cs[j] && cs[i].lastAccessDate <= cs[j].lastAccessDate
        decreases |rest|
      {
        var oldest := Oldest(rest);
        assert forall i :: 0 <= i < |cs| ==> cs[i] in cs;
        cs := cs + [oldest];
        rest := rest - {oldest};
      }
    }

    method Oldest(cs: set<CachedImage>) returns (c: CachedImage)
      requires cs != {}
      ensures c in cs && forall d :: d in cs ==> c.lastAccessDate <= d.lastAccessDate
    {
      c :| c in cs;
      var rest := cs - {c};
      while rest != {}
        invariant rest <= cs && c in cs
        invariant forall d :: d in cs && d !in rest ==> c.lastAccessDate <= d.lastAccessDate
        decreases |rest|
      {
        var d :| d in rest;
        rest := rest - {d};
        if d.lastAccessDate < c.lastAccessDate { c := d; }
      }
    }

    // The second block of add. The n images purged are the shortest run of least
    // recently used ones that brings the usage down to the preferred one.
    method Purge() returns (ghost purged: seq<CachedImage>, ghost n: nat)
      requires Valid()
      modifies this`cachedImages, this`currentMemoryUsage
      ensures Valid() && currentMemoryUsage <= memoryCapacity
      ensures old(currentMemoryUsage) <= memoryCapacity ==> n == 0
      ensures old(currentMemoryUsage) > memoryCapacity ==>
        && LeastRecentFirst(purged, old(cachedImages))
        && JustEnough(purged, old(currentMemoryUsage) - preferredMemoryUsageAfterPurge, n)
        && currentMemoryUsage <= preferredMemoryUsageAfterPurge
      // Nothing purged was used after anything kept, and with one image less purged
      // the usage would still be above the preferred one.
      ensures forall i, k :: 0 <= i < n && k in cachedImages
                ==> purged[i].lastAccessDate <= cachedImages[k].lastAccessDate
      ensures forall i :: 0 <= i < n
                ==> Total(old(cachedImages) - Identifiers(purged[..i])) > preferredMemoryUsageAfterPurge
      ensures n <= |purged| && cachedImages == old(cachedImages) - Identifiers(purged[..n])
    {
      hide Total;
      hide Bytes;
      hide JustEnough;
      hide Identifiers;
      hide LeastRecentFirst;
      purged, n := [], 0;
      NothingPurged();
      if currentMemoryUsage > memoryCapacity {
        var bytesToPurge := currentMemoryUsage - preferredMemoryUsageAfterPurge;
        var sortedImages := SortedImages();
        ghost var before := cachedImages;
        AllInOrder(before, sortedImages);
        var bytesPurged;
        bytesPurged, n := RemoveFirst(sortedImages, bytesToPurge);
        purged := sortedImages;
        RunIsPurged(before, purged, bytesToPurge, n);
        currentMemoryUsage := currentMemoryUsage - bytesPurged;
      }
    }

    lemma NothingPurged()
      ensures Identifiers([]) == {}
    {
    }

    // Remove images in this order until enough bytes are gone.
    method RemoveFirst(images: seq<CachedImage>, bytesToPurge: nat) returns (bytesPurged: nat, ghost n: nat)
      requires 0 < bytesToPurge <= Bytes(images)
      modifies this`cachedImages
      ensures n <= |images| && JustEnough(images, bytesToPurge, n) && bytesToPurge <= bytesPurged == Bytes(images[..n])
      ensures cachedImages == old(cachedImages) - Identifiers(images[..n])
    {
      NoneYet(images);
      hide Bytes;
      hide Identifiers;
      bytesPurged := 0;
      var i := 0;
      assert images[..|images|] == images;
      while i < |images|
        invariant i <= |images|
        invariant cachedImages == old(cachedImages) - Identifiers(images[..i])
        invariant bytesPurged == Bytes(images[..i])
        invariant forall j :: 0 <= j <= i ==> Bytes(images[..j]) < bytesToPurge
      {
        var cachedImage := images[i];
        OneMorePurged(images, i);
        cachedImages := cachedImages - {cachedImage.identifier};
        bytesPurged := bytesPurged + cachedImage.totalBytes;
        i := i + 1;
        if bytesPurged >= bytesToPurge { break; }
      }
      n := i;
    }

    // ----- Removing -----

    method RemoveImage(identifier: string) returns (removed: bool)
      requires Valid()
      modifies this`cachedImages, this`currentMemoryUsage
      ensures Valid() && removed == (identifier in old(cachedImages))
      ensures cachedImages == old(cachedImages) - {identifier}
    {
      removed := false;
      if identifier in cachedImages {
        TotalWithout(cachedImages, identifier);
        var totalBytes := cachedImages[identifier].totalBytes;
        cachedImages := cachedImages - {identifier};
        currentMemoryUsage := currentMemoryUsage - totalBytes;
        removed := true;
      }
    }

    // All images whose identifier starts with that of the request.
    method RemoveImages(requestIdentifier: string) returns (removed: bool)
      requires Valid()
      modifies this`cachedImages, this`currentMemoryUsage
      ensures Valid() && removed == exists k :: k in old(cachedImages) && requestIdentifier <= k
      ensures cachedImages == map k | k in old(cachedImages) && !(requestIdentifier <= k) :: old(cachedImages)[k]
    {
      removed := false;
      var keys := cachedImages.Keys;
      while keys != {}
        invariant Valid() && keys <= old(cachedImages).Keys
        invariant forall k :: k in cachedImages <==> k in old(cachedImages) && (k in keys || !(requestIdentifier <= k))
        invariant forall k :: k in cachedImages ==> cachedImages[k] == old(cachedImages)[k]
        invariant removed == exists k :: k in old(cachedImages) && k !in keys && requestIdentifier <= k
        decreases |keys|
      {
        var key :| key in keys;
        keys := keys - {key};
        if requestIdentifier <= key {
          var _ := RemoveImage(key);
          removed := true;
        }
      }
    }

    method RemoveAllImages() returns (removed: bool)
      requires Valid()
      modifies this`cachedImages, this`currentMemoryUsage
      ensures Valid() && cachedImages == map[] && removed == (old(cachedImages) != map[])
    {
      removed := false;
      if cachedImages != map[] {
        cachedImages := map[];
        currentMemoryUsage := 0;
        removed := true;
      }
    }

    // ----- Fetching -----

    // An image that is found counts as used now.
    method Image(identifier: string, now: int) returns (found: bool, image: int)
      requires Valid()
      modifies cachedImages.Values
      ensures Valid() && found == (identifier in cachedImages)
      ensures found ==> image == cachedImages[identifier].image && cachedImages[identifier].lastAccessDate == now
      ensures forall k :: k in cachedImages && k != identifier
                ==> cachedImages[k].lastAccessDate == old(cachedImages[k].lastAccessDate)
    {
      found, image := false, 0;
      if identifier in cachedImages {
        var cachedImage := cachedImages[identifier];
        image := cachedImage.AccessImage(now);
        found := true;
      }
    }
  }
}
