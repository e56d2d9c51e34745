/** Release manifests against the Compose stack: the unique-service refinement, service coverage, and the
    two checks the supervisor makes before an upgrade or rollback. */
module UpgradeManifest {
  import opened Prelude
  import opened Text
  import opened Sorting

  datatype Image = Image(service: string, image: string, digest: string)

  function Services(images: seq<Image>): set<string> {
    set i | 0 <= i < |images| :: images[i].service
  }

  function Pinned(image: Image): string {
    image.image + "@" + image.digest
  }

  function PinnedImages(images: seq<Image>): set<string> {
    set i | 0 <= i < |images| :: Pinned(images[i])
  }

  predicate UniqueServices(images: seq<Image>) {
    forall i, j :: 0 <= i < j < |images| ==> images[i].service != images[j].service
  }

  // ----- The refinement of the manifest schema -----

  /** The service of this image appeared before. */
  predicate Repeats(images: seq<Image>, i: int) {
    0 <= i < |images| && exists j :: 0 <= j < i && images[j].service == images[i].service
  }

  lemma UniqueMeansNoRepeats(images: seq<Image>)
    ensures UniqueServices(images) <==> forall i :: !Repeats(images, i)
  {
    if !UniqueServices(images) {
      var i, j :| 0 <= i < j < |images| && images[i].service == images[j].service;
      assert Repeats(images, j);
    }
  }

  /** The refinement reports the index of every image whose service appeared before, and so reports
      nothing exactly when no service appears twice. */
  method DuplicateServices(images: seq<Image>) returns (issues: seq<nat>)
    ensures forall i :: i in issues <==> Repeats(images, i)
    ensures issues == [] <==> UniqueServices(images)
  {
    var seen: set<string> := {};
    issues := [];
    for index := 0 to |images|
      invariant forall service :: service in seen <==> exists j :: 0 <= j < index && images[j].service == service
      invariant forall i :: i in issues <==> i < index && Repeats(images, i)
    {
      if images[index].service in seen {
        issues := issues + [index];
      }
      seen := seen + {images[index].service};
    }
    UniqueMeansNoRepeats(images);
    assert issues != [] ==> issues[0] in issues;
  }

  // ----- Coverage -----

  datatype Coverage = Coverage(missing: seq<string>, unexpected: seq<string>)

  /** The members of one list that a set does not have, each once and in order. */
  function Lacking(names: seq<string>, present: set<string>): seq<string> {
    Sort(Filtered(Unique(names), present), TextLe)
  }

  function Filtered(names: seq<string>, present: set<string>): seq<string> {
    if names == [] then []
    else Filtered(names[..|names| - 1], present)
         + (if names[|names| - 1] in present then [] else [names[|names| - 1]])
  }

  function AsSet(names: seq<string>): set<string> {
    set i | 0 <= i < |names| :: names[i]
  }

  function ManifestServiceCoverage(images: seq<Image>, composeServices: seq<string>): Coverage {
    Coverage(Lacking(composeServices, Services(images)), Lacking(ServiceNames(images), AsSet(composeServices)))
  }

  function ServiceNames(images: seq<Image>): (names: seq<string>)
    ensures |names| == |images| && forall i :: 0 <= i < |images| ==> names[i] == images[i].service
  {
    seq(|images|, i requires 0 <= i < |images| => images[i].service)
  }

  lemma {:induction false} FilteredHolds(names: seq<string>, present: set<string>)
    ensures forall x :: x in Filtered(names, present) <==> x in names && x !in present
    ensures Distinct(names) ==> Distinct(Filtered(names, present))
  {
    if names != [] {
      var n := |names| - 1;
      FilteredHolds(names[..n], present);
      assert names == names[..n] + [names[n]];
    }
  }

  /** What is lacking is exactly the set difference, sorted and without repetition. */
  lemma LackingIsDifference(names: seq<string>, present: set<string>)
    ensures forall x :: x in Lacking(names, present) <==> x in names && x !in present
    ensures Sorted(Lacking(names, present), TextLe) && Distinct(Lacking(names, present))
  {
    var kept := Filtered(Unique(names), present);
    UniqueIsDistinct(names);
    FilteredHolds(Unique(names), present);
    TextLeIsTotal();
    SortSorts(kept, TextLe);
    SortKeepsDistinct(kept, TextLe);
    forall x ensures x in Lacking(names, present) <==> x in kept {
      assert x in multiset(Lacking(names, present)) <==> x in multiset(kept);
    }
  }

  // ----- The checks before a release is applied -----

  /** validateComposeRelease, given the services Compose lists and those that run. */
  predicate ComposeReleaseIsValid(images: seq<Image>, services: seq<string>, running: seq<string>) {
    var coverage := ManifestServiceCoverage(images, services);
    AsSet(services) != {} && coverage.missing == [] && coverage.unexpected == []
    && Lacking(running, AsSet(services)) == []
  }

  /** The check passes exactly when the manifest names the services of the selected stack, no more and no
      fewer, and nothing runs outside it. */
  lemma ValidReleaseCoversStack(images: seq<Image>, services: seq<string>, running: seq<string>)
    ensures ComposeReleaseIsValid(images, services, running)
       <==> services != [] && Services(images) == AsSet(services) && AsSet(running) <= AsSet(services)
  {
    LackingIsDifference(services, Services(images));
    LackingIsDifference(ServiceNames(images), AsSet(services));
    LackingIsDifference(running, AsSet(services));
    NoneLacking(services, Services(images));
    NoneLacking(ServiceNames(images), AsSet(services));
    NoneLacking(running, AsSet(services));
    assert forall x :: x in Services(images) <==> x in ServiceNames(images);
    assert services != [] ==> services[0] in AsSet(services);
  }

  lemma NoneLacking(names: seq<string>, present: set<string>)
    ensures Lacking(names, present) == [] <==> AsSet(names) <= present
  {
    LackingIsDifference(names, present);
    var lacking := Lacking(names, present);
    if lacking != [] {
      assert lacking[0] in lacking;
    }
    assert forall x :: x in AsSet(names) <==> x in names;
  }

  predicate IsHex(c: char) {
    'a' <= c <= 'f' || '0' <= c <= '9'
  }

  predicate IsDigest(s: string) {
    |s| == 71 && s[..7] == "sha256:" && forall i :: 7 <= i < 71 ==> IsHex(s[i])
  }

  /** The reference ends in a pinned digest. */
  predicate EndsPinned(reference: string) {
    |reference| >= 72 && reference[|reference| - 72] == '@' && IsDigest(reference[|reference| - 71..])
  }

  /** verifyReleaseImages, given the references Compose resolves. */
  predicate ImagesVerify(images: seq<Image>, resolved: seq<string>) {
    && PinnedImages(images) <= AsSet(resolved)
    && AsSet(resolved) <= PinnedImages(images)
    && forall i :: 0 <= i < |resolved| ==> EndsPinned(resolved[i])
  }

  predicate SchemaAccepts(images: seq<Image>) {
    images != [] && UniqueServices(images) && forall i :: 0 <= i < |images| ==> IsDigest(images[i].digest)
  }

  /** For a manifest the schema accepts, the resolved images verify exactly when they are the reviewed
      images: a mutable tag can then never slip through, and the separate test for one never decides. */
  lemma VerifiedImagesAreReviewed(images: seq<Image>, resolved: seq<string>)
    requires SchemaAccepts(images)
    ensures ImagesVerify(images, resolved) <==> AsSet(resolved) == PinnedImages(images)
  {
    if AsSet(resolved) == PinnedImages(images) {
      forall i | 0 <= i < |resolved| ensures EndsPinned(resolved[i]) {
        assert resolved[i] in AsSet(resolved);
        var j :| 0 <= j < |images| && resolved[i] == Pinned(images[j]);
        var reference := Pinned(images[j]);
        assert |reference| == |images[j].image| + 72;
        assert reference[|reference| - 71..] == images[j].digest;
      }
    }
  }

  /** For an accepted manifest that covers the stack, every service of the stack has exactly one image. */
  lemma EveryServiceHasOneImage(images: seq<Image>, services: seq<string>, running: seq<string>, service: string)
    requires SchemaAccepts(images) && ComposeReleaseIsValid(images, services, running) && service in services
    ensures exists i :: && 0 <= i < |images| && images[i].service == service
                        && forall j :: 0 <= j < |images| && images[j].service == service ==> j == i
  {
    ValidReleaseCoversStack(images, services, running);
    assert service in AsSet(services) && service in Services(images);
    var i :| 0 <= i < |images| && images[i].service == service;
  }

  /** Both lists of the coverage: missing are the services of the stack that the manifest does not name, and
      unexpected are those it names that the stack does not have. */
  lemma CoverageListsDifferences(images: seq<Image>, composeServices: seq<string>, service: string)
    ensures var coverage := ManifestServiceCoverage(images, composeServices);
            && (service in coverage.missing <==>
                  service in composeServices && forall i :: 0 <= i < |images| ==> images[i].service != service)
            && (service in coverage.unexpected <==>
                  service !in composeServices && exists i :: 0 <= i < |images| && images[i].service == service)
  {
    LackingIsDifference(composeServices, Services(images));
    LackingIsDifference(ServiceNames(images), AsSet(composeServices));
    assert service in ServiceNames(images) <==> exists i :: 0 <= i < |images| && images[i].service == service;
    assert service in AsSet(composeServices) <==> service in composeServices;
  }

  /** A digest spelled out: the word sha256, a colon and 64 characters from 0 to 9 and a to f. */
  lemma DigestSpelledOut(s: string)
    ensures IsDigest(s) <==>
              && |s| == 7 + 64
              && s[0] == 's' && s[1] == 'h' && s[2] == 'a' && s[3] == '2' && s[4] == '5' && s[5] == '6' && s[6] == ':'
              && forall i :: 7 <= i < 71 ==> '0' <= s[i] <= '9' || 'a' <= s[i] <= 'f'
  {
    if |s| == 71 {
      assert s[..7] == [s[0], s[1], s[2], s[3], s[4], s[5], s[6]];
    }
  }

  /** The reviewed reference of an image is its name, an at sign and its digest; for an accepted manifest and
      verified images, what runs is exactly these references. */
  lemma VerifiedReferences(images: seq<Image>, resolved: seq<string>, reference: string)
    requires SchemaAccepts(images) && ImagesVerify(images, resolved)
    ensures reference in resolved <==>
              exists i :: 0 <= i < |images| && reference == images[i].image + "@" + images[i].digest
    ensures reference in resolved ==> |reference| >= 72 && IsDigest(reference[|reference| - 71..])
  {
    VerifiedImagesAreReviewed(images, resolved);
    assert reference in AsSet(resolved) <==> reference in resolved;
    assert reference in PinnedImages(images) <==> exists i :: 0 <= i < |images| && reference == Pinned(images[i]);
    if reference in resolved {
      var i :| 0 <= i < |resolved| && resolved[i] == reference;
      assert EndsPinned(resolved[i]);
    }
  }
}
