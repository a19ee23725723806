/** The byte-level verifier meets the protocol: a release directory that `verify_release_dir` accepts is what an
    activation starts from. */
module VerifiedDirectory {
  import opened Bytes
  import opened MmapIndex
  import opened StaticRelease
  import opened ReleaseReadBack
  import opened ReleaseVerify
  import opened CodecConfig
  import RM = ReleaseManifest
  import SA = StaticActivation
  import Wrappers

  /** Positions in the lexicographic order of the file names; `release_manifest.json` has the one left free. */
  function Position(f: FileName): (p: SA.Name)
    ensures p != SA.MANIFEST
  {
    match f
    case CentroidsFile => 0
    case CodebookFile => 1
    case ProjectionFile => 2
    case QjlFile => 3
    case RotationFile => 5
    case TurboStaticFile => 6
    case DocidFile => 7
    case MetaFile => 8
    case MetaExtFile => 9
    case MetaJsonFile => 10
    case TextFile => 11
    case TitleFile => 12
  }

  lemma PositionsDiffer(f: FileName, g: FileName)
    requires Position(f) == Position(g)
    ensures f == g
  {
  }

  function Listing(files: Files): map<SA.Name, FileName> {
    map f | f in files :: Position(f) := f
  }

  /** The entries of the manifest for `names`, as activation reads them. */
  function Entries(m: RM.Manifest, names: seq<FileName>): seq<SA.Output>
    requires |m.outputs| == |names|
  {
    seq(|names|, i requires 0 <= i < |names| =>
        SA.Output(Position(names[i]), m.outputs[i].sizeBytes, Chars(m.outputs[i].sha256)))
  }

  /** The directory: its files and its manifest; `rest` is what else the manifest's text says. */
  function DirOf(files: Files, m: RM.Manifest, names: seq<FileName>, rest: string): SA.Dir
    requires |m.outputs| == |names|
  {
    (map p | p in Listing(files) :: SA.Bin(Chars(files[Listing(files)[p]])))
    [SA.MANIFEST := SA.ManifestDoc(SA.Manifest(Chars(m.releaseId), Entries(m, names), rest))]
  }

  /** `sha256_hex` on the characters of a text. */
  function ShaHex(sha: seq<byte> -> seq<byte>): string -> string {
    (s: string) => Chars(Hex(sha(Ascii(s))))
  }

  lemma AsciiReadsBack(b: seq<byte>)
    ensures Ascii(Chars(b)) == b
  {
    forall i | 0 <= i < |b|
      ensures Ascii(Chars(b))[i] == b[i]
    {
      assert Chars(b)[i] as int == b[i] as int;
    }
  }

  lemma EntryMatches(files: Files, m: RM.Manifest, names: seq<FileName>, rest: string, sha: seq<byte> -> seq<byte>,
      i: nat)
    requires OutputsOk(files, m, names, sha) && i < |names|
    ensures SA.OutputIn(ShaHex(sha), DirOf(files, m, names, rest), Entries(m, names)[i])
  {
    hide Hex, NameText;
    var bytes := files[names[i]];
    assert m.outputs[i] == OutputOf(names[i], bytes, sha);
    AsciiReadsBack(bytes);
    assert Position(names[i]) in Listing(files);
    PositionsDiffer(Listing(files)[Position(names[i])], names[i]);
    assert DirOf(files, m, names, rest)[Position(names[i])] == SA.Bin(Chars(bytes));
  }

  /** Every directory the verifier accepts is complete for its manifest's id, with the manifest in no entry. */
  lemma AcceptedIsVerified(files: Files, m: RM.Manifest, expectModelId: Wrappers.Option<Text>,
      expectDim: Wrappers.Option<nat>,
                           utf8: seq<byte> -> bool, sha: seq<byte> -> seq<byte>, rest: string)
    requires IsSha256(sha) && Verifies(files, m, expectModelId, expectDim, utf8, sha)
    ensures
      var names := OutputNames(m.turboVersion).value;
      && |m.outputs| == |names|
      && SA.Verified(ShaHex(sha), DirOf(files, m, names, rest))
      && DirOf(files, m, names, rest)[SA.MANIFEST].manifest.id == Chars(m.releaseId)
  {
    hide OutputNames, IndexOk, IdOk, ProvenanceOk, ProfileOk, SectionOk, SA.OutputIn, ShaHex;
    var names := OutputNames(m.turboVersion).value;
    var dir := DirOf(files, m, names, rest);
    forall i | 0 <= i < |dir[SA.MANIFEST].manifest.outputs|
      ensures SA.OutputIn(ShaHex(sha), dir, dir[SA.MANIFEST].manifest.outputs[i])
      ensures dir[SA.MANIFEST].manifest.outputs[i].name != SA.MANIFEST
    {
      EntryMatches(files, m, names, rest, sha, i);
    }
  }
}
