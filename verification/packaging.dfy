/**
 * What the user is offered once the loop is done (app.py lines 109-130):
 * nothing for an empty result, the one workbook as it is, or a ZIP archive
 * holding every workbook under its output name.
 */
module Packaging {
  import opened Workbooks
  import opened Conversion
  import opened OrderedMaps
  import opened Batch

  /** One member of the archive: `zipf.writestr(name, data)`. */
  datatype Entry = Entry(name: string, data: Workbook)

  datatype Offer =
    | NoDownload
    | SingleFile(name: string, data: Workbook)
    | ZipArchive(name: string, entries: seq<Entry>)

  const ArchiveName: string := "converted_pdfs.zip"

  /** The archive members, one per key of `files`, in insertion order. */
  function ArchiveEntries(files: Files): (es: seq<Entry>)
    requires Valid(files)
    ensures |es| == |files.keys|
    ensures forall i :: 0 <= i < |es| ==> es[i].name == files.keys[i] && es[i].name in files.values
    ensures forall i :: 0 <= i < |es| ==> es[i].data == files.values[files.keys[i]]
    ensures forall i, j :: 0 <= i < j < |es| ==> es[i].name != es[j].name
  {
    seq(|files.keys|, i requires 0 <= i < |files.keys| => Entry(files.keys[i], files.values[files.keys[i]]))
  }

  /** The offer for the collected workbooks `files`. */
  function Package(files: Files): (o: Offer)
    requires Valid(files)
    ensures o.NoDownload? <==> |files.values| == 0
    ensures o.SingleFile? <==> |files.values| == 1
    ensures o.ZipArchive? <==> |files.values| > 1
    ensures o.SingleFile? ==> o.name in files.values && o.data == files.values[o.name]
    ensures o.ZipArchive? ==> o.name == ArchiveName && o.entries == ArchiveEntries(files)
  {
    KeyCount(files);
    if |files.keys| == 0 then NoDownload
    else if |files.keys| == 1 then SingleFile(files.keys[0], files.values[files.keys[0]])
    else ZipArchive(ArchiveName, ArchiveEntries(files))
  }

  /** A valid map has as many entries as listed keys. */
  lemma {:induction false} KeyCount<V>(files: OrderedMap<string, V>)
    requires Valid(files)
    ensures |files.values| == |files.keys|
  {
    DistinctCount(files.keys);
  }

  lemma {:induction false} DistinctCount(s: seq<string>)
    requires forall p, q :: 0 <= p < q < |s| ==> s[p] != s[q]
    ensures |set i | 0 <= i < |s| :: s[i]| == |s|
  {
    if s != [] {
      var n := |s| - 1;
      DistinctCount(s[..n]);
      var prefix := set i | 0 <= i < n :: s[..n][i];
      assert (set i | 0 <= i < |s| :: s[i]) == prefix + {s[n]};
      assert s[n] !in prefix;
    }
  }

  /** The download section as the script runs it, writing the archive member by member. */
  method Deliver(files: Files) returns (o: Offer)
    requires Valid(files)
    ensures o == Package(files)
  {
    KeyCount(files);
    if |files.keys| == 0 {
      return NoDownload;
    }
    if |files.keys| == 1 {
      var name := files.keys[0];
      return SingleFile(name, files.values[name]);
    }
    var entries: seq<Entry> := [];
    for i := 0 to |files.keys|
      invariant entries == ArchiveEntries(files)[..i]
    {
      var name := files.keys[i];
      entries := entries + [Entry(name, files.values[name])];
    }
    return ZipArchive(ArchiveName, entries);
  }

  /** From the uploads to the offer: the `Convert to Excel` action. */
  method Run(docs: seq<Document>) returns (o: Offer)
    requires BatchWellFormed(docs)
    ensures o == Package(Collect(Conversions(docs)))
  {
    var files := ConvertAll(docs);
    o := Deliver(files);
  }

  /**
   * Every workbook offered, alone or in the archive, is exactly the
   * conversion of the last upload with that output name.
   */
  lemma {:induction false} OfferedWorkbooks(cs: seq<Converted>, i: nat, key: string)
    requires Produces(cs, i, key)
    requires forall j: nat :: i < j < |cs| ==> !Produces(cs, j, key)
    ensures Package(Collect(cs)).SingleFile? ==> Package(Collect(cs)) == SingleFile(key, cs[i].result.value)
    ensures Package(Collect(cs)).ZipArchive? ==> Entry(key, cs[i].result.value) in Package(Collect(cs)).entries
    ensures !Package(Collect(cs)).NoDownload?
  {
    var files := Collect(cs);
    CollectLastWins(cs, i, key);
    KeyCount(files);
    assert key in files.values;
    var p :| 0 <= p < |files.keys| && files.keys[p] == key;
    var o := Package(files);
    if o.ZipArchive? {
      assert o.entries[p] == Entry(key, cs[i].result.value);
    } else if o.SingleFile? {
      assert p == 0;
    }
  }
}
