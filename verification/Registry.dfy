/**
 Publishing components to image registries and pulling them back. A registry is content
 addressed: manifests and blobs are stored under the hash of their bytes, tags point to
 manifests and may move.
 */
module Registry {
  import opened Base
  import Wit

  type Hash = string

  datatype Descriptor = Descriptor(mediaType: string, digest: Hash, size: nat)

  datatype Manifest = Manifest(schemaVersion: nat, mediaType: string, config: Descriptor, layers: seq<Descriptor>)

  datatype WasmConfig = WasmConfig(
    author: string, architecture: string, os: string, layerDigests: seq<string>, imports: seq<string>, exports: seq<string>)

  const MANIFEST_TYPE := "application/vnd.oci.image.manifest.v1+json"
  const CONFIG_TYPE := "application/vnd.wasm.config.v0+json"
  const LAYER_TYPE := "application/wasm"
  const DOCKER_MANIFEST_TYPE := "application/vnd.docker.distribution.manifest.v2+json"

  /** Hashing, JSON and the extraction of WIT text from a component. */
  datatype Codec = Codec(
    hash: Bytes -> Hash,
    writeManifest: Manifest -> Bytes,
    readManifest: Bytes -> Option<Manifest>,
    writeConfig: WasmConfig -> Bytes,
    readConfig: Bytes -> Option<WasmConfig>,
    extract: Bytes -> Option<string>)

  /** No two contents share a hash and JSON gives back what was written. */
  ghost predicate Faithful(c: Codec) {
    && (forall x, y :: c.hash(x) == c.hash(y) ==> x == y)
    && (forall m :: c.readManifest(c.writeManifest(m)) == Some(m))
    && (forall f :: c.readConfig(c.writeConfig(f)) == Some(f))
  }

  datatype Repository = Repository(blobs: map<Hash, Bytes>, manifests: map<Hash, Bytes>, tags: map<string, Hash>)

  type Store = map<string, Repository>

  datatype Reference = ByDigest(repository: string, digest: Hash) | ByTag(repository: string, tag: string) | Unparsable(text: string)

  datatype Answer<+T> = Ok(value: T) | Failure

  // ---------------------------------------------------------------- wasm images

  datatype WasmImage = WasmImage(component: Bytes, config: WasmConfig)

  function NewWasmImage(c: Codec, component: Bytes): Option<WasmImage> {
    match c.extract(component)
    case None => None
    case Some(text) =>
      Some(WasmImage(component, WasmConfig("wa8s", "wasm", "wasip2", [c.hash(component)], Wit.Imports(text), Wit.Exports(text))))
  }

  function RawConfig(c: Codec, image: WasmImage): Bytes { c.writeConfig(image.config) }

  function ManifestOf(c: Codec, image: WasmImage): Manifest {
    Manifest(2, MANIFEST_TYPE,
             Descriptor(CONFIG_TYPE, c.hash(RawConfig(c, image)), |RawConfig(c, image)|),
             [Descriptor(LAYER_TYPE, c.hash(image.component), |image.component|)])
  }

  function RawManifest(c: Codec, image: WasmImage): Bytes { c.writeManifest(ManifestOf(c, image)) }

  function DigestOf(c: Codec, image: WasmImage): Hash { c.hash(RawManifest(c, image)) }

  function LayerByDigest(c: Codec, image: WasmImage, digest: Hash): Option<Bytes> {
    if digest == c.hash(image.component) then Some(image.component) else None
  }

  /** The manifest's one layer is the component, and nothing else answers to its digest. */
  lemma LayerIsComponent(c: Codec, image: WasmImage, digest: Hash, content: Bytes)
    requires Faithful(c)
    ensures |ManifestOf(c, image).layers| == 1
    ensures LayerByDigest(c, image, ManifestOf(c, image).layers[0].digest) == Some(image.component)
    ensures LayerByDigest(c, image, c.hash(content)).Some? ==> content == image.component
  {}

  // ---------------------------------------------------------------- the store

  const NO_CONTENT := Repository(map[], map[], map[])

  function Repo(st: Store, name: string): Repository {
    if name in st then st[name] else NO_CONTENT
  }

  function AddBlob(c: Codec, st: Store, name: string, content: Bytes): Store {
    var r := Repo(st, name);
    st[name := r.(blobs := r.blobs[c.hash(content) := content])]
  }

  /** Storing a manifest under a tag stores it under its digest and moves the tag. */
  function PutManifest(c: Codec, st: Store, name: string, tag: string, raw: Bytes): Store {
    var r := Repo(st, name);
    st[name := r.(manifests := r.manifests[c.hash(raw) := raw], tags := r.tags[tag := c.hash(raw)])]
  }

  function SetTag(st: Store, name: string, tag: string, digest: Hash): Store {
    var r := Repo(st, name);
    st[name := r.(tags := r.tags[tag := digest])]
  }

  // ---------------------------------------------------------------- operations

  function ResolveDigest(st: Store, from: Reference): Answer<(string, Hash)> {
    match from
    case ByDigest(repository, digest) => Ok((repository, digest))
    case ByTag(repository, tag) =>
      if tag in Repo(st, repository).tags then Ok((repository, Repo(st, repository).tags[tag])) else Failure
    case Unparsable(_) => Failure
  }

  /** `reach` says how many of the uploads (layer, config, manifest) get through. */
  function PushEffect(c: Codec, st: Store, repository: string, tag: string, component: Bytes, reach: nat): (Store, Answer<(Hash, WasmConfig)>) {
    match NewWasmImage(c, component)
    case None => (st, Failure)
    case Some(image) =>
      var s1 := if reach >= 1 then AddBlob(c, st, repository, component) else st;
      var s2 := if reach >= 2 then AddBlob(c, s1, repository, RawConfig(c, image)) else s1;
      if reach >= 3 then (PutManifest(c, s2, repository, tag, RawManifest(c, image)), Ok((DigestOf(c, image), image.config)))
      else (s2, Failure)
  }

  /** The blobs a manifest refers to: its config and its layers. */
  function BlobsOf(m: Manifest): seq<Hash> {
    [m.config.digest] + seq(|m.layers|, i requires 0 <= i < |m.layers| => m.layers[i].digest)
  }

  /** Copies blobs one by one as long as they are there and get through; None when one does not. */
  function CopyBlobs(c: Codec, st: Store, from: string, to: string, digests: seq<Hash>, reach: nat): (Store, bool)
    decreases |digests|
  {
    if digests == [] then (st, true)
    else if reach == 0 || digests[0] !in Repo(st, from).blobs then (st, false)
    else CopyBlobs(c, AddBlob(c, st, to, Repo(st, from).blobs[digests[0]]), from, to, digests[1..], reach - 1)
  }

  function CopyEffect(c: Codec, st: Store, from: Reference, repository: string, tag: string, reach: nat): (Store, Answer<Hash>) {
    match ResolveDigest(st, from)
    case Failure => (st, Failure)
    case Ok((source, digest)) =>
      if digest !in Repo(st, source).manifests then (st, Failure)
      else
        var raw := Repo(st, source).manifests[digest];
        match c.readManifest(raw)
        case None => (st, Failure)
        case Some(m) =>
          var (s1, complete) := CopyBlobs(c, st, source, repository, BlobsOf(m), reach);
          if !complete || reach <= |BlobsOf(m)| then (s1, Failure)
          else (PutManifest(c, s1, repository, tag, raw), Ok(digest))
  }

  function Pull(c: Codec, st: Store, repository: string, digest: Hash): Answer<(Bytes, WasmConfig)> {
    var r := Repo(st, repository);
    if digest !in r.manifests then Failure
    else
      match c.readManifest(r.manifests[digest])
      case None => Failure
      case Some(m) =>
        if (m.mediaType != MANIFEST_TYPE && m.mediaType != DOCKER_MANIFEST_TYPE) || |m.layers| != 1 || m.layers[0].mediaType != LAYER_TYPE then Failure
        else if m.layers[0].digest !in r.blobs || m.config.digest !in r.blobs then Failure
        else
          match c.readConfig(r.blobs[m.config.digest])
          case None => Failure
          case Some(config) => Ok((r.blobs[m.layers[0].digest], config))
  }

  // ---------------------------------------------------------------- what the operations promise

  /** The config describes the component: who made it, for what, its one layer and its interfaces. */
  predicate Describes(c: Codec, component: Bytes, config: WasmConfig) {
    && c.extract(component).Some?
    && config.author == "wa8s" && config.architecture == "wasm" && config.os == "wasip2"
    && config.layerDigests == [c.hash(component)]
    && config.imports == Wit.Imports(c.extract(component).value) && config.exports == Wit.Exports(c.extract(component).value)
  }

  /** The tag points to a manifest of the config and of the component as its only layer, and both are there. */
  ghost predicate Tagged(c: Codec, st: Store, repository: string, tag: string, component: Bytes, digest: Hash, config: WasmConfig) {
    var described := c.writeConfig(config);
    var raw := c.writeManifest(Manifest(
      2, "application/vnd.oci.image.manifest.v1+json",
      Descriptor("application/vnd.wasm.config.v0+json", c.hash(described), |described|),
      [Descriptor("application/wasm", c.hash(component), |component|)]));
    && repository in st && tag in st[repository].tags && st[repository].tags[tag] == digest == c.hash(raw)
    && HasManifest(st, repository, digest, raw)
    && HasBlob(st, repository, c.hash(component), component) && HasBlob(st, repository, c.hash(described), described)
  }

  /** Only the repository written to differs. */
  ghost predicate SameElsewhere(a: Store, b: Store, repository: string) {
    forall name :: name != repository ==> Repo(b, name) == Repo(a, name)
  }

  /** No manifest or tag differs, so nothing new can be pulled. */
  ghost predicate NothingPublished(a: Store, b: Store) {
    forall name :: Repo(b, name).manifests == Repo(a, name).manifests && Repo(b, name).tags == Repo(a, name).tags
  }

  /** A push succeeds if the interfaces can be read and all three uploads get through. */
  ghost predicate PushOutcome(c: Codec, a: Store, repository: string, tag: string, component: Bytes, reach: nat, b: Store, r: Answer<(Hash, WasmConfig)>) {
    && (r.Ok? <==> c.extract(component).Some? && reach >= 3)
    && SameElsewhere(a, b, repository) && (r.Failure? ==> NothingPublished(a, b))
    && (r.Ok? ==> Describes(c, component, r.value.1) && (Faithful(c) ==> Tagged(c, b, repository, tag, component, r.value.0, r.value.1)))
  }

  lemma PushLeaves(c: Codec, st: Store, repository: string, tag: string, component: Bytes, reach: nat)
    ensures var (after, r) := PushEffect(c, st, repository, tag, component, reach);
            PushOutcome(c, st, repository, tag, component, reach, after, r)
  {}

  /** Where a reference leads: a digest to itself, a tag to what it points to. */
  predicate LeadsTo(st: Store, from: Reference, source: string, digest: Hash) {
    match from
    case ByDigest(repository, d) => source == repository && digest == d
    case ByTag(repository, tag) => source == repository && tag in Repo(st, repository).tags && digest == Repo(st, repository).tags[tag]
    case Unparsable(_) => false
  }

  /** The manifest is there and readable, with its config and all its layers. */
  predicate Complete(c: Codec, st: Store, source: string, digest: Hash) {
    && digest in Repo(st, source).manifests
    && match c.readManifest(Repo(st, source).manifests[digest])
       case None => false
       case Some(m) =>
         && m.config.digest in Repo(st, source).blobs
         && forall i :: 0 <= i < |m.layers| ==> m.layers[i].digest in Repo(st, source).blobs
  }

  /** The copy of the digest can be made with this many uploads: one for each blob and one for the manifest. */
  predicate CanCopy(c: Codec, st: Store, source: string, digest: Hash, reach: nat) {
    Complete(c, st, source, digest) && reach >= 2 + |c.readManifest(Repo(st, source).manifests[digest]).value.layers|
  }

  /** The tag now leads to the copied manifest. */
  predicate CopiedTo(a: Store, b: Store, source: string, repository: string, tag: string, digest: Hash)
    requires digest in Repo(a, source).manifests
  {
    LeadsTo(b, ByTag(repository, tag), repository, digest) && HasManifest(b, repository, digest, Repo(a, source).manifests[digest])
  }

  /** A copy succeeds if the source is complete and every upload gets through; otherwise it publishes nothing. */
  ghost predicate CopyOutcome(c: Codec, a: Store, from: Reference, repository: string, tag: string, reach: nat, b: Store, r: Answer<Hash>) {
    && SameElsewhere(a, b, repository) && (r.Failure? ==> NothingPublished(a, b))
    && (forall source, digest :: LeadsTo(a, from, source, digest) ==>
          && (r == Ok(digest) <==> CanCopy(c, a, source, digest, reach))
          && (r.Ok? ==> CanCopy(c, a, source, digest, reach) && CopiedTo(a, b, source, repository, tag, digest)))
    && (r.Ok? ==> exists source :: LeadsTo(a, from, source, r.value))
  }

  lemma {:induction false} CopyBlobsLeaves(c: Codec, st: Store, from: string, to: string, digests: seq<Hash>, reach: nat)
    requires Addressed(c, st)
    ensures var (after, complete) := CopyBlobs(c, st, from, to, digests, reach);
            && SameElsewhere(st, after, to) && NothingPublished(st, after)
            && (complete <==> |digests| <= reach && forall i :: 0 <= i < |digests| ==> digests[i] in Repo(st, from).blobs)
    decreases |digests|
  {
    if digests != [] && reach > 0 && digests[0] in Repo(st, from).blobs {
      var content := Repo(st, from).blobs[digests[0]];
      assert from in st && c.hash(content) == digests[0];
      var next := AddBlob(c, st, to, content);
      AddressedNext(c, st, to, content);
      CopyBlobsLeaves(c, next, from, to, digests[1..], reach - 1);
      assert Repo(next, from).blobs.Keys == Repo(st, from).blobs.Keys;
      assert digests == [digests[0]] + digests[1..];
    }
  }

  lemma AddressedNext(c: Codec, st: Store, to: string, content: Bytes)
    requires Addressed(c, st)
    ensures Addressed(c, AddBlob(c, st, to, content))
  {}

  lemma CopyLeavesFrom(c: Codec, st: Store, from: Reference, repository: string, tag: string, reach: nat, source: string, digest: Hash)
    requires Faithful(c) && Addressed(c, st) && LeadsTo(st, from, source, digest)
    ensures var (after, r) := CopyEffect(c, st, from, repository, tag, reach);
            && SameElsewhere(st, after, repository) && (r.Failure? ==> NothingPublished(st, after))
            && (r.Ok? <==> CanCopy(c, st, source, digest, reach))
            && (r.Ok? ==> r.value == digest && CopiedTo(st, after, source, repository, tag, digest))
  {
    assert ResolveDigest(st, from) == Ok((source, digest));
    if digest in Repo(st, source).manifests && c.readManifest(Repo(st, source).manifests[digest]).Some? {
      var raw := Repo(st, source).manifests[digest];
      var m := c.readManifest(raw).value;
      assert source in st && c.hash(raw) == digest;
      BlobsComplete(st, source, m);
      CopyBlobsLeaves(c, st, source, repository, BlobsOf(m), reach);
      assert CanCopy(c, st, source, digest, reach) <==>
               CopyBlobs(c, st, source, repository, BlobsOf(m), reach).1 && reach > |BlobsOf(m)|;
    }
  }

  lemma CopyLeaves(c: Codec, st: Store, from: Reference, repository: string, tag: string, reach: nat)
    requires Faithful(c) && Addressed(c, st)
    ensures var (after, r) := CopyEffect(c, st, from, repository, tag, reach);
            CopyOutcome(c, st, from, repository, tag, reach, after, r)
  {
    if ResolveDigest(st, from).Ok? {
      var (source, digest) := ResolveDigest(st, from).value;
      CopyLeavesFrom(c, st, from, repository, tag, reach, source, digest);
    }
  }

  lemma BlobsComplete(st: Store, source: string, m: Manifest)
    ensures |BlobsOf(m)| == 1 + |m.layers|
    ensures (forall i :: 0 <= i < |BlobsOf(m)| ==> BlobsOf(m)[i] in Repo(st, source).blobs) <==>
              m.config.digest in Repo(st, source).blobs && forall i :: 0 <= i < |m.layers| ==> m.layers[i].digest in Repo(st, source).blobs
  {
    assert BlobsOf(m)[0] == m.config.digest && forall i :: 0 <= i < |m.layers| ==> BlobsOf(m)[i + 1] == m.layers[i].digest;
  }

  /**
   A digest is pulled exactly if its manifest is an image's, with one layer of WebAssembly
   and a readable config that are both there; then these are the component and its config.
   */
  lemma PullExactly(c: Codec, st: Store, repository: string, digest: Hash, component: Bytes, config: WasmConfig)
    ensures Pull(c, st, repository, digest) == Ok((component, config)) <==>
              exists raw, m, described ::
                && HasManifest(st, repository, digest, raw) && c.readManifest(raw) == Some(m)
                && (m.mediaType == "application/vnd.oci.image.manifest.v1+json"
                    || m.mediaType == "application/vnd.docker.distribution.manifest.v2+json")
                && |m.layers| == 1 && m.layers[0].mediaType == "application/wasm"
                && HasBlob(st, repository, m.layers[0].digest, component)
                && HasBlob(st, repository, m.config.digest, described) && c.readConfig(described) == Some(config)
  {
    if Pull(c, st, repository, digest) == Ok((component, config)) {
      var raw := Repo(st, repository).manifests[digest];
      var m := c.readManifest(raw).value;
      var described := Repo(st, repository).blobs[m.config.digest];
      assert HasManifest(st, repository, digest, raw) && HasBlob(st, repository, m.layers[0].digest, component);
      assert HasBlob(st, repository, m.config.digest, described) && c.readConfig(described) == Some(config);
    }
  }

  /** A registry that the controllers write to. */
  class Remote {
    const codec: Codec
    var store: Store

    constructor (c: Codec, st: Store)
      ensures codec == c && store == st
    {
      codec := c;
      store := st;
    }

    method Push(repository: string, tag: string, component: Bytes, reach: nat) returns (r: Answer<(Hash, WasmConfig)>)
      modifies this`store
      ensures (store, r) == PushEffect(codec, old(store), repository, tag, component, reach)
      ensures PushOutcome(codec, old(store), repository, tag, component, reach, store, r)
    {
      PushLeaves(codec, store, repository, tag, component, reach);
      var image := NewWasmImage(codec, component);
      if image.None? {
        return Failure;
      }
      var digest := DigestOf(codec, image.value);
      if reach == 0 {
        return Failure;
      }
      store := AddBlob(codec, store, repository, component);
      if reach == 1 {
        return Failure;
      }
      store := AddBlob(codec, store, repository, RawConfig(codec, image.value));
      if reach == 2 {
        return Failure;
      }
      store := PutManifest(codec, store, repository, tag, RawManifest(codec, image.value));
      return Ok((digest, image.value.config));
    }

    method Copy(from: Reference, repository: string, tag: string, reach: nat) returns (r: Answer<Hash>)
      modifies this`store
      ensures (store, r) == CopyEffect(codec, old(store), from, repository, tag, reach)
      ensures Faithful(codec) && Addressed(codec, old(store)) ==>
                CopyOutcome(codec, old(store), from, repository, tag, reach, store, r)
    {
      ghost var before := store;
      r := CopyInSteps(from, repository, tag, reach);
      if Faithful(codec) && Addressed(codec, before) {
        CopyLeaves(codec, before, from, repository, tag, reach);
      }
    }

    /** Resolving, fetching the manifest, and uploading its blobs and then itself. */
    method CopyInSteps(from: Reference, repository: string, tag: string, reach: nat) returns (r: Answer<Hash>)
      modifies this`store
      ensures (store, r) == CopyEffect(codec, old(store), from, repository, tag, reach)
    {
      var resolved := ResolveDigest(store, from);
      if resolved.Failure? {
        return Failure;
      }
      var (source, digest) := resolved.value;
      if digest !in Repo(store, source).manifests {
        return Failure;
      }
      var raw := Repo(store, source).manifests[digest];
      var manifest := codec.readManifest(raw);
      if manifest.None? {
        return Failure;
      }
      var digests := BlobsOf(manifest.value);
      ghost var whole := CopyBlobs(codec, store, source, repository, digests, reach);
      for i := 0 to |digests|
        invariant i <= reach
        invariant whole == CopyBlobs(codec, store, source, repository, digests[i..], reach - i)
      {
        assert digests[i..][1..] == digests[i + 1..];
        if reach == i || digests[i] !in Repo(store, source).blobs {
          return Failure;
        }
        store := AddBlob(codec, store, repository, Repo(store, source).blobs[digests[i]]);
      }
      if reach == |digests| {
        return Failure;
      }
      store := PutManifest(codec, store, repository, tag, raw);
      return Ok(digest);
    }
  }

  // ---------------------------------------------------------------- content addressing

  /** Everything stored is stored under its hash. */
  ghost predicate Addressed(c: Codec, st: Store) {
    forall name :: name in st ==>
      && (forall h :: h in st[name].blobs ==> c.hash(st[name].blobs[h]) == h)
      && (forall h :: h in st[name].manifests ==> c.hash(st[name].manifests[h]) == h)
  }

  predicate HasBlob(st: Store, repository: string, digest: Hash, content: Bytes) {
    digest in Repo(st, repository).blobs && Repo(st, repository).blobs[digest] == content
  }

  predicate HasManifest(st: Store, repository: string, digest: Hash, raw: Bytes) {
    digest in Repo(st, repository).manifests && Repo(st, repository).manifests[digest] == raw
  }

  /** Every content of the first store is in the second; tags may differ. */
  ghost predicate Keeps(a: Store, b: Store) {
    && (forall name, h, x :: HasBlob(a, name, h, x) ==> HasBlob(b, name, h, x))
    && (forall name, h, x :: HasManifest(a, name, h, x) ==> HasManifest(b, name, h, x))
  }

  lemma AddBlobKeeps(c: Codec, st: Store, name: string, content: Bytes)
    requires Faithful(c) && Addressed(c, st)
    ensures Addressed(c, AddBlob(c, st, name, content)) && Keeps(st, AddBlob(c, st, name, content))
  {}

  lemma PutManifestKeeps(c: Codec, st: Store, name: string, tag: string, raw: Bytes)
    requires Faithful(c) && Addressed(c, st)
    ensures Addressed(c, PutManifest(c, st, name, tag, raw)) && Keeps(st, PutManifest(c, st, name, tag, raw))
  {}

  lemma SetTagKeeps(c: Codec, st: Store, name: string, tag: string, digest: Hash)
    requires Addressed(c, st)
    ensures Addressed(c, SetTag(st, name, tag, digest)) && Keeps(st, SetTag(st, name, tag, digest))
  {}

  lemma KeepsTransitive(a: Store, b: Store, d: Store)
    requires Keeps(a, b) && Keeps(b, d)
    ensures Keeps(a, d)
  {}

  /** Both repositories have the blob, with the same content. */
  ghost predicate Shared(st: Store, from: string, to: string, digest: Hash) {
    exists x :: HasBlob(st, from, digest, x) && HasBlob(st, to, digest, x)
  }

  ghost predicate AllShared(st: Store, from: string, to: string, digests: seq<Hash>) {
    forall i :: 0 <= i < |digests| ==> Shared(st, from, to, digests[i])
  }

  lemma AllSharedKept(a: Store, b: Store, from: string, to: string, first: Hash, rest: seq<Hash>)
    requires Keeps(a, b) && Shared(a, from, to, first) && AllShared(b, from, to, rest)
    ensures AllShared(b, from, to, [first] + rest)
  {
    var x :| HasBlob(a, from, first, x) && HasBlob(a, to, first, x);
    assert HasBlob(b, from, first, x);
  }

  /** Copying the first blob. */
  lemma CopyFirst(c: Codec, st: Store, from: string, to: string, digests: seq<Hash>, reach: nat) returns (next: Store)
    requires Faithful(c) && Addressed(c, st)
    requires digests != [] && reach > 0 && digests[0] in Repo(st, from).blobs
    ensures CopyBlobs(c, st, from, to, digests, reach) == CopyBlobs(c, next, from, to, digests[1..], reach - 1)
    ensures Addressed(c, next) && Keeps(st, next) && Shared(next, from, to, digests[0])
  {
    var content := Repo(st, from).blobs[digests[0]];
    assert from in st && c.hash(content) == digests[0];
    next := AddBlob(c, st, to, content);
    AddBlobKeeps(c, st, to, content);
    assert HasBlob(st, from, digests[0], content);
    assert HasBlob(next, to, digests[0], content);
  }

  /** What copying blobs leaves: nothing lost, and all of them in both places if it went through. */
  ghost predicate Copied(c: Codec, st: Store, from: string, to: string, digests: seq<Hash>, last: Store, complete: bool) {
    Addressed(c, last) && Keeps(st, last) && (complete ==> AllShared(last, from, to, digests))
  }

  lemma CopiedCons(c: Codec, st: Store, next: Store, from: string, to: string, digests: seq<Hash>, last: Store, complete: bool)
    requires digests != [] && Keeps(st, next) && Shared(next, from, to, digests[0])
    requires Copied(c, next, from, to, digests[1..], last, complete)
    ensures Copied(c, st, from, to, digests, last, complete)
  {
    KeepsTransitive(st, next, last);
    if complete {
      AllSharedKept(next, last, from, to, digests[0], digests[1..]);
      assert [digests[0]] + digests[1..] == digests;
    }
  }

  lemma {:induction false} CopyBlobsKeeps(c: Codec, st: Store, from: string, to: string, digests: seq<Hash>, reach: nat)
      returns (last: Store, complete: bool)
    requires Faithful(c) && Addressed(c, st)
    ensures CopyBlobs(c, st, from, to, digests, reach) == (last, complete)
    ensures Copied(c, st, from, to, digests, last, complete)
    decreases |digests|
  {
    if digests == [] || reach == 0 || digests[0] !in Repo(st, from).blobs {
      last, complete := st, digests == [];
    } else {
      var next := CopyFirst(c, st, from, to, digests, reach);
      last, complete := CopyBlobsKeeps(c, next, from, to, digests[1..], reach - 1);
      CopiedCons(c, st, next, from, to, digests, last, complete);
    }
  }

  // ---------------------------------------------------------------- runs of operations

  datatype Operation =
    | PushTo(repository: string, tag: string, component: Bytes, reach: nat)
    | CopyTo(from: Reference, repository: string, tag: string, reach: nat)
    /** Someone else moves a tag. */
    | Retag(repository: string, tag: string, digest: Hash)

  function After(c: Codec, st: Store, op: Operation): Store {
    match op
    case PushTo(repository, tag, component, reach) => PushEffect(c, st, repository, tag, component, reach).0
    case CopyTo(from, repository, tag, reach) => CopyEffect(c, st, from, repository, tag, reach).0
    case Retag(repository, tag, digest) => SetTag(st, repository, tag, digest)
  }

  function AfterAll(c: Codec, st: Store, ops: seq<Operation>): Store {
    if ops == [] then st else After(c, AfterAll(c, st, ops[..|ops| - 1]), ops[|ops| - 1])
  }

  lemma PushKeeps(c: Codec, st: Store, repository: string, tag: string, component: Bytes, reach: nat)
    requires Faithful(c) && Addressed(c, st)
    ensures var r := PushEffect(c, st, repository, tag, component, reach).0; Addressed(c, r) && Keeps(st, r)
  {
    if NewWasmImage(c, component).Some? {
      var image := NewWasmImage(c, component).value;
      var s1 := if reach >= 1 then AddBlob(c, st, repository, component) else st;
      AddBlobKeeps(c, st, repository, component);
      var s2 := if reach >= 2 then AddBlob(c, s1, repository, RawConfig(c, image)) else s1;
      AddBlobKeeps(c, s1, repository, RawConfig(c, image));
      KeepsTransitive(st, s1, s2);
      PutManifestKeeps(c, s2, repository, tag, RawManifest(c, image));
      KeepsTransitive(st, s2, PutManifest(c, s2, repository, tag, RawManifest(c, image)));
    }
  }

  lemma CopyKeeps(c: Codec, st: Store, from: Reference, repository: string, tag: string, reach: nat)
    requires Faithful(c) && Addressed(c, st)
    ensures var r := CopyEffect(c, st, from, repository, tag, reach).0; Addressed(c, r) && Keeps(st, r)
  {
    if ResolveDigest(st, from).Ok? {
      var (source, digest) := ResolveDigest(st, from).value;
      if digest in Repo(st, source).manifests && c.readManifest(Repo(st, source).manifests[digest]).Some? {
        var raw := Repo(st, source).manifests[digest];
        var m := c.readManifest(raw).value;
        var s1, complete := CopyBlobsKeeps(c, st, source, repository, BlobsOf(m), reach);
        PutManifestKeeps(c, s1, repository, tag, raw);
        KeepsTransitive(st, s1, PutManifest(c, s1, repository, tag, raw));
      }
    }
  }

  /** No sequence of pushes, copies and moved tags, completed or cut short, loses or changes content. */
  lemma {:induction false} OperationsKeep(c: Codec, st: Store, ops: seq<Operation>)
    requires Faithful(c) && Addressed(c, st)
    ensures Addressed(c, AfterAll(c, st, ops)) && Keeps(st, AfterAll(c, st, ops))
    decreases |ops|
  {
    if ops != [] {
      OperationsKeep(c, st, ops[..|ops| - 1]);
      var before := AfterAll(c, st, ops[..|ops| - 1]);
      match ops[|ops| - 1] {
        case PushTo(repository, tag, component, reach) => PushKeeps(c, before, repository, tag, component, reach);
        case CopyTo(from, repository, tag, reach) => CopyKeeps(c, before, from, repository, tag, reach);
        case Retag(repository, tag, digest) => SetTagKeeps(c, before, repository, tag, digest);
      }
      KeepsTransitive(st, before, AfterAll(c, st, ops));
    }
  }

  lemma PullKept(c: Codec, a: Store, b: Store, repository: string, digest: Hash)
    requires Keeps(a, b) && Pull(c, a, repository, digest).Ok?
    ensures Pull(c, b, repository, digest) == Pull(c, a, repository, digest)
  {
    var raw := Repo(a, repository).manifests[digest];
    var m := c.readManifest(raw).value;
    assert HasManifest(a, repository, digest, raw);
    assert HasBlob(a, repository, m.layers[0].digest, Repo(a, repository).blobs[m.layers[0].digest]);
    assert HasBlob(a, repository, m.config.digest, Repo(a, repository).blobs[m.config.digest]);
  }

  // ---------------------------------------------------------------- main theorems

  lemma StoreBlob(c: Codec, st: Store, repository: string, content: Bytes) returns (next: Store)
    requires Faithful(c) && Addressed(c, st)
    ensures next == AddBlob(c, st, repository, content)
    ensures Addressed(c, next) && Keeps(st, next) && HasBlob(next, repository, c.hash(content), content)
  {
    next := AddBlob(c, st, repository, content);
    AddBlobKeeps(c, st, repository, content);
  }

  lemma StoreManifest(c: Codec, st: Store, repository: string, tag: string, raw: Bytes) returns (next: Store)
    requires Faithful(c) && Addressed(c, st)
    ensures next == PutManifest(c, st, repository, tag, raw)
    ensures Addressed(c, next) && Keeps(st, next) && HasManifest(next, repository, c.hash(raw), raw)
  {
    next := PutManifest(c, st, repository, tag, raw);
    PutManifestKeeps(c, st, repository, tag, raw);
  }

  /** What a completed push left in the store. */
  lemma PushCompleted(c: Codec, st: Store, repository: string, tag: string, component: Bytes, reach: nat)
      returns (image: WasmImage, after: Store)
    requires Faithful(c) && Addressed(c, st)
    requires PushEffect(c, st, repository, tag, component, reach).1.Ok?
    ensures NewWasmImage(c, component) == Some(image)
    ensures PushEffect(c, st, repository, tag, component, reach) == (after, Ok((DigestOf(c, image), image.config)))
    ensures Addressed(c, after)
    ensures HasBlob(after, repository, c.hash(component), component)
    ensures HasBlob(after, repository, c.hash(RawConfig(c, image)), RawConfig(c, image))
    ensures HasManifest(after, repository, DigestOf(c, image), RawManifest(c, image))
  {
    image := NewWasmImage(c, component).value;
    var s1 := StoreBlob(c, st, repository, component);
    var s2 := StoreBlob(c, s1, repository, RawConfig(c, image));
    after := StoreManifest(c, s2, repository, tag, RawManifest(c, image));
  }

  lemma PulledImage(c: Codec, st: Store, repository: string, component: Bytes, image: WasmImage)
    requires Faithful(c) && NewWasmImage(c, component) == Some(image)
    requires HasBlob(st, repository, c.hash(component), component)
    requires HasBlob(st, repository, c.hash(RawConfig(c, image)), RawConfig(c, image))
    requires HasManifest(st, repository, DigestOf(c, image), RawManifest(c, image))
    ensures Pull(c, st, repository, DigestOf(c, image)) == Ok((component, image.config))
  {}

  /** Pulling a pushed digest yields the component and its config, whatever happens in between. */
  lemma PushThenPull(c: Codec, st: Store, repository: string, tag: string, component: Bytes, reach: nat, later: seq<Operation>)
    requires Faithful(c) && Addressed(c, st)
    requires PushEffect(c, st, repository, tag, component, reach).1.Ok?
    ensures var (after, answer) := PushEffect(c, st, repository, tag, component, reach);
            && Pull(c, AfterAll(c, after, later), repository, answer.value.0) == Ok((component, answer.value.1))
            && Describes(c, component, answer.value.1)
  {
    var image, after := PushCompleted(c, st, repository, tag, component, reach);
    PulledImage(c, after, repository, component, image);
    OperationsKeep(c, after, later);
    PullKept(c, after, AfterAll(c, after, later), repository, DigestOf(c, image));
  }

  /** The steps a completed copy took before the manifest was put. */
  lemma CopyCompleted(c: Codec, st: Store, from: Reference, repository: string, tag: string, reach: nat)
      returns (source: string, digest: Hash, raw: Bytes, m: Manifest, s1: Store)
    requires Faithful(c) && Addressed(c, st)
    requires CopyEffect(c, st, from, repository, tag, reach).1.Ok?
    ensures ResolveDigest(st, from) == Ok((source, digest)) && HasManifest(st, source, digest, raw)
    ensures c.readManifest(raw) == Some(m) && c.hash(raw) == digest
    ensures Addressed(c, s1) && Keeps(st, s1) && AllShared(s1, source, repository, BlobsOf(m))
    ensures CopyEffect(c, st, from, repository, tag, reach) == (PutManifest(c, s1, repository, tag, raw), Ok(digest))
  {
    source, digest := ResolveDigest(st, from).value.0, ResolveDigest(st, from).value.1;
    raw := Repo(st, source).manifests[digest];
    m := c.readManifest(raw).value;
    assert source in st;
    var complete;
    s1, complete := CopyBlobsKeeps(c, st, source, repository, BlobsOf(m), reach);
  }

  /** A manifest put beside its blobs. */
  lemma PutLands(c: Codec, s1: Store, source: string, repository: string, tag: string, raw: Bytes, m: Manifest) returns (after: Store)
    requires Faithful(c) && Addressed(c, s1) && AllShared(s1, source, repository, BlobsOf(m))
    requires HasManifest(s1, source, c.hash(raw), raw)
    ensures after == PutManifest(c, s1, repository, tag, raw)
    ensures Addressed(c, after) && Keeps(s1, after) && AllShared(after, source, repository, BlobsOf(m))
    ensures HasManifest(after, source, c.hash(raw), raw) && HasManifest(after, repository, c.hash(raw), raw)
    ensures ResolveDigest(after, ByTag(repository, tag)) == Ok((repository, c.hash(raw)))
  {
    after := PutManifest(c, s1, repository, tag, raw);
    PutManifestKeeps(c, s1, repository, tag, raw);
    forall i | 0 <= i < |BlobsOf(m)| ensures Shared(after, source, repository, BlobsOf(m)[i]) {
      var x :| HasBlob(s1, source, BlobsOf(m)[i], x) && HasBlob(s1, repository, BlobsOf(m)[i], x);
      assert HasBlob(after, source, BlobsOf(m)[i], x);
    }
  }

  /** The same manifest with the same blobs pulls alike. */
  lemma PulledAlike(c: Codec, st: Store, source: string, repository: string, digest: Hash, raw: Bytes, m: Manifest)
    requires HasManifest(st, source, digest, raw) && HasManifest(st, repository, digest, raw)
    requires c.readManifest(raw) == Some(m) && AllShared(st, source, repository, BlobsOf(m))
    ensures Pull(c, st, repository, digest) == Pull(c, st, source, digest)
  {
    if |m.layers| == 1 {
      assert Shared(st, source, repository, BlobsOf(m)[0]) && BlobsOf(m)[0] == m.config.digest;
      assert Shared(st, source, repository, BlobsOf(m)[1]) && BlobsOf(m)[1] == m.layers[0].digest;
    }
  }

  /** A copy keeps the digest, and pulling it yields what the source yields, now and later. */
  lemma CopyThenPull(c: Codec, st: Store, from: Reference, repository: string, tag: string, reach: nat, later: seq<Operation>)
    requires Faithful(c) && Addressed(c, st)
    requires CopyEffect(c, st, from, repository, tag, reach).1.Ok?
    ensures ResolveDigest(st, from).Ok?
    ensures var (source, digest) := ResolveDigest(st, from).value;
            var (after, answer) := CopyEffect(c, st, from, repository, tag, reach);
            && answer.value == digest && ResolveDigest(after, ByTag(repository, tag)) == Ok((repository, digest))
            && Pull(c, AfterAll(c, after, later), repository, digest) == Pull(c, after, source, digest)
            && (Pull(c, st, source, digest).Ok? ==> Pull(c, AfterAll(c, after, later), repository, digest) == Pull(c, st, source, digest))
  {
    var source, digest, raw, m, s1 := CopyCompleted(c, st, from, repository, tag, reach);
    KeepsManifest(st, s1, source, digest, raw);
    var after := PutLands(c, s1, source, repository, tag, raw, m);
    KeepsTransitive(st, s1, after);
    PulledAlike(c, after, source, repository, digest, raw, m);
    OperationsKeep(c, after, later);
    PullSame(c, after, AfterAll(c, after, later), source, repository, digest, raw, m);
    if Pull(c, st, source, digest).Ok? {
      PullKept(c, st, after, source, digest);
    }
  }

  lemma KeepsManifest(a: Store, b: Store, repository: string, digest: Hash, raw: Bytes)
    requires Keeps(a, b) && HasManifest(a, repository, digest, raw)
    ensures HasManifest(b, repository, digest, raw)
  {}

  /** With a manifest and all its blobs in place, keeping content keeps even a failing pull failing. */
  lemma PullSame(c: Codec, a: Store, b: Store, source: string, repository: string, digest: Hash, raw: Bytes, m: Manifest)
    requires Keeps(a, b) && HasManifest(a, repository, digest, raw) && c.readManifest(raw) == Some(m)
    requires AllShared(a, source, repository, BlobsOf(m))
    ensures Pull(c, b, repository, digest) == Pull(c, a, repository, digest)
  {
    assert HasManifest(b, repository, digest, raw);
    if |m.layers| == 1 {
      assert Shared(a, source, repository, BlobsOf(m)[0]) && BlobsOf(m)[0] == m.config.digest;
      assert Shared(a, source, repository, BlobsOf(m)[1]) && BlobsOf(m)[1] == m.layers[0].digest;
    }
  }

  /** Pushing and pulling a component whose interfaces are printed as a list yields these imports and exports, in order. */
  lemma PulledInterfaces(c: Codec, st: Store, repository: string, tag: string, component: Bytes, reach: nat, later: seq<Operation>, items: seq<Wit.Item>)
    requires Faithful(c) && Addressed(c, st) && reach >= 3
    requires c.extract(component) == Some(Wit.Print(items)) && forall i :: 0 <= i < |items| ==> Wit.Printable(items[i])
    ensures var (after, answer) := PushEffect(c, st, repository, tag, component, reach);
            && answer.Ok?
            && var pulled := Pull(c, AfterAll(c, after, later), repository, answer.value.0);
               && pulled.Ok? && pulled.value.0 == component
               && pulled.value.1.imports == Wit.ItemNames(items, true) && pulled.value.1.exports == Wit.ItemNames(items, false)
  {
    PushLeaves(c, st, repository, tag, component, reach);
    PushThenPull(c, st, repository, tag, component, reach, later);
    Wit.PrintScanRoundTrip(items);
  }
}
