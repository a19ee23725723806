/** What a release directory is, spelled out: the names of its files, and the assets its loader accepts. */
module ReleaseFacts {
  import opened Wrappers
  import opened Orders
  import opened Bytes
  import opened CodecConfig
  import opened TurboHeader
  import opened CodecAssets
  import opened MmapIndex
  import opened StaticRelease

  // ----- file names -----

  /** `a` and `b` agree on their first `k` bytes, and then `a` has the smaller one. */
  predicate FirstDiffer(a: string, b: string, k: nat) {
    k < |a| && k < |b| && a[..k] == b[..k] && a[k] < b[k] && b[k] as int < 256
  }

  lemma AsciiLess(a: string, b: string, k: nat)
    requires FirstDiffer(a, b, k)
    ensures TextLe(Ascii(a), Ascii(b)) && Ascii(a) != Ascii(b)
  {
    assert Ascii(a)[k] < Ascii(b)[k];
    forall i | 0 <= i < k
      ensures Ascii(a)[i] == Ascii(b)[i]
    {
      assert a[..k][i] == b[..k][i];
    }
    assert Ascii(a)[..k] == Ascii(b)[..k];
    TextLeMeans(Ascii(a), Ascii(b));
  }

  lemma AssetNamesAscend()
    ensures Ascends(CentroidsFile, ProjectionFile) && Ascends(ProjectionFile, TurboStaticFile)
    ensures Ascends(CodebookFile, QjlFile) && Ascends(QjlFile, RotationFile) && Ascends(RotationFile, TurboStaticFile)
  {
    AsciiLess("centroids.bin", "projection.bin", 0);
    AsciiLess("projection.bin", "turbo_static.bin", 0);
    AsciiLess("codebook.bin", "qjl.bin", 0);
    AsciiLess("qjl.bin", "rotation.bin", 0);
    AsciiLess("rotation.bin", "turbo_static.bin", 0);
  }

  lemma ImageNamesAscend()
    ensures Ascends(TurboStaticFile, DocidFile) && Ascends(DocidFile, MetaFile)
    ensures Ascends(MetaJsonFile, TextFile) && Ascends(TextFile, TitleFile)
  {
    hide Ascii, TextLe;
    AsciiLess("turbo_static.bin", "turbo_static_docid.bin", 12);
    AsciiLess("turbo_static_docid.bin", "turbo_static_meta.bin", 13);
    AsciiLess("turbo_static_meta_json.bin", "turbo_static_text.bin", 13);
    AsciiLess("turbo_static_text.bin", "turbo_static_title.bin", 14);
  }

  lemma MetaNamesAscend()
    ensures Ascends(MetaFile, MetaExtFile) && Ascends(MetaExtFile, MetaJsonFile)
  {
    hide Ascii, TextLe;
    AsciiLess("turbo_static_meta.bin", "turbo_static_meta_ext.bin", 17);
    AsciiLess("turbo_static_meta_ext.bin", "turbo_static_meta_json.bin", 18);
  }

  predicate Ascends(a: FileName, b: FileName) {
    TextLe(NameText(a), NameText(b)) && NameText(a) != NameText(b)
  }

  /** The file list of every version ascends strictly by name. */
  lemma OutputNamesAscend(version: nat, i: nat, j: nat)
    requires OutputNames(version).Some? && i < j < |OutputNames(version).value|
    ensures Ascends(OutputNames(version).value[i], OutputNames(version).value[j])
    decreases j - i
  {
    hide NameText, TextLe;
    if j == i + 1 {
      AssetNamesAscend();
      ImageNamesAscend();
      MetaNamesAscend();
    } else {
      OutputNamesAscend(version, i, j - 1);
      OutputNamesAscend(version, j - 1, j);
      AscendsOn(OutputNames(version).value[i], OutputNames(version).value[j - 1], OutputNames(version).value[j]);
    }
  }

  lemma AscendsOn(a: FileName, b: FileName, c: FileName)
    requires Ascends(a, b) && Ascends(b, c)
    ensures Ascends(a, c)
  {
    hide NameText;
    TextLeTransitive(NameText(a), NameText(b), NameText(c));
    TextLeTotal(NameText(a), NameText(b));
  }

  // ----- assets -----

  /** The v4 assets load exactly if each parses, all are of the header's 512 dimensions, the codebook is the committed
      one, the signs fill 64 bytes, rotation and signs come from one generator version, and the header's fingerprint
      is that of the config they name together with the three files. */
  lemma ProdLoadsExactly(files: Files, h: Header, sha: seq<byte> -> seq<byte>)
    requires IsSha256(sha) && RotationFile in files && CodebookFile in files && QjlFile in files
    requires ReadRotation(files[RotationFile]).Some? && ReadCodebook(files[CodebookFile]).Some?
        && ReadQjl(files[QjlFile]).Some?
    ensures
      var r, c, q := ReadRotation(files[RotationFile]).value, ReadCodebook(files[CodebookFile]).value,
          ReadQjl(files[QjlFile]).value;
      var config := Config(TurboQuantProdV1, 512, 2, q.qjlDim, r.seed, q.seed, r.generatorVersion, NormalizeAndStore);
      && (ProdCodecOf(files, h, sha).Some?
          <==>
            && h.dim == r.dim == q.dim == 512 && c == Codebook(512, 2, D512_B2_CENTROIDS)
            && 505 <= q.qjlDim <= 512 && r.generatorVersion == q.generatorVersion
            && h.codec.Some?
            && h.codec.value.fingerprint
               == FingerprintOf(config,
                    [AssetFile(Ascii("rotation.bin"), files[RotationFile]),
                     AssetFile(Ascii("codebook.bin"), files[CodebookFile]),
                     AssetFile(Ascii("qjl.bin"), files[QjlFile])], sha))
      && (ProdCodecOf(files, h, sha).Some? ==> ProdCodecOf(files, h, sha) == Some(Prod(config, r, c, q)))
  {
    hide FingerprintOf, ReadRotation, ReadQjl, ReadCodebook, Ascii, IsSha256;
  }

  /** And the legacy assets if each parses and is for 512 dimensions, with four centroids a dimension. */
  lemma LegacyLoadsExactly(files: Files, h: Header)
    ensures LegacyCodecOf(files, h).Some? <==>
        && CentroidsFile in files && ProjectionFile in files
        && (exists t :: ReadCentroids(files[CentroidsFile]) == Some(t) && t.dim == h.dim && t.centroidsPerDim == 4)
        && (exists p :: ReadProjection(files[ProjectionFile]) == Some(p) && p.inputDim == p.outputDim == h.dim)
  {
    assert Pow2(1) == 2 && Pow2(2) == 4;
  }
}
