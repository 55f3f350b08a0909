/**
 * The conversion loop over the uploads (app.py lines 100-104): every upload
 * is converted in turn, and each workbook produced is stored in the
 * insertion-ordered `excel_files` under the upload's output name. An upload
 * that produced nothing (no Java runtime) is skipped.
 */
module Batch {
  import opened Wrappers
  import opened Workbooks
  import opened Conversion
  import opened OutputNames
  import opened OrderedMaps

  /** `excel_files`: output name to workbook, in insertion order. */
  type Files = OrderedMap<string, Workbook>

  /** One handled upload: its name and what `convert_pdf_to_excel` returned for it. */
  datatype Converted = Converted(name: string, result: Option<Workbook>)

  predicate BatchWellFormed(docs: seq<Document>) {
    forall i :: 0 <= i < |docs| ==> DocumentWellFormed(docs[i])
  }

  /** The uploads, each paired with its conversion. */
  function Conversions(docs: seq<Document>): seq<Converted>
    requires BatchWellFormed(docs)
  {
    seq(|docs|, i requires 0 <= i < |docs| => Converted(docs[i].name, Plan(docs[i])))
  }

  /** Upload `i` produced a workbook, stored under `key`. */
  predicate Produces(cs: seq<Converted>, i: nat, key: string) {
    i < |cs| && cs[i].result.Some? && OutputName(cs[i].name) == key
  }

  /** `excel_files` once the loop has handled the uploads `cs`. */
  function Collect(cs: seq<Converted>): (m: Files)
    ensures Valid(m)
  {
    if cs == [] then Empty()
    else
      var n := |cs| - 1;
      var prev := Collect(cs[..n]);
      match cs[n].result
      case None => prev
      case Some(w) => Put(prev, OutputName(cs[n].name), w)
  }

  /** The loop as the script runs it. */
  method ConvertAll(docs: seq<Document>) returns (files: Files)
    requires BatchWellFormed(docs)
    ensures files == Collect(Conversions(docs))
  {
    ghost var cs := Conversions(docs);
    files := Empty();
    for i := 0 to |docs|
      invariant files == Collect(cs[..i])
    {
      var result := ConvertPdfToExcel(docs[i]);
      assert cs[..i + 1][..i] == cs[..i];
      assert cs[i] == Converted(docs[i].name, result);
      if result.Some? {
        files := Put(files, OutputName(docs[i].name), result.value);
      }
    }
    assert cs[..|docs|] == cs;
  }

  lemma PrefixProduces(cs: seq<Converted>, n: nat, i: nat, key: string)
    requires n <= |cs|
    ensures i < n ==> (Produces(cs[..n], i, key) <==> Produces(cs, i, key))
  {
  }

  /** A key is in the map exactly when some upload produced a workbook under it. */
  lemma {:induction false} CollectKeys(cs: seq<Converted>, key: string)
    ensures key in Collect(cs).values <==> exists i :: 0 <= i < |cs| && Produces(cs, i, key)
  {
    if cs != [] {
      var n := |cs| - 1;
      CollectKeys(cs[..n], key);
      forall i | 0 <= i < n
        ensures Produces(cs[..n], i, key) <==> Produces(cs, i, key)
      {
        PrefixProduces(cs, n, i, key);
      }
      if Produces(cs, n, key) {
        assert key in Collect(cs).values;
      } else {
        assert key in Collect(cs).values <==> key in Collect(cs[..n]).values;
      }
    }
  }

  /** The value stored under a key is the workbook of the last upload producing that key. */
  lemma {:induction false} CollectLastWins(cs: seq<Converted>, i: nat, key: string)
    requires Produces(cs, i, key)
    requires forall j: nat :: i < j < |cs| ==> !Produces(cs, j, key)
    ensures key in Collect(cs).values && Collect(cs).values[key] == cs[i].result.value
  {
    var n := |cs| - 1;
    var prev := Collect(cs[..n]);
    if i < n {
      PrefixProduces(cs, n, i, key);
      forall j: nat | i < j < n
        ensures !Produces(cs[..n], j, key)
      {
        PrefixProduces(cs, n, j, key);
      }
      CollectLastWins(cs[..n], i, key);
      assert !Produces(cs, n, key);
      if cs[n].result.Some? {
        assert OutputName(cs[n].name) != key;
        assert Collect(cs) == Put(prev, OutputName(cs[n].name), cs[n].result.value);
      } else {
        assert Collect(cs) == prev;
      }
    } else {
      assert Collect(cs) == Put(prev, key, cs[i].result.value);
    }
  }

  /**
   * Keys keep the position of their first insertion: whenever key q comes
   * after key p, every upload producing q is preceded by one producing p.
   */
  lemma {:induction false} CollectFirstPosition(cs: seq<Converted>, p: nat, q: nat, j: nat)
    requires p < q < |Collect(cs).keys|
    requires Produces(cs, j, Collect(cs).keys[q])
    ensures exists i :: 0 <= i < j && Produces(cs, i, Collect(cs).keys[p])
  {
    var n := |cs| - 1;
    var prev, m := Collect(cs[..n]), Collect(cs);
    var c := cs[n];
    if c.result.None? || OutputName(c.name) in prev.values {
      // the keys are those of the prefix
      assert m.keys == prev.keys;
      var j' := j;
      if j == n {
        // the last upload re-stores a key that some earlier upload produced
        assert m.keys[q] in prev.values;
        CollectKeys(cs[..n], m.keys[q]);
        var e :| 0 <= e < n && Produces(cs[..n], e, m.keys[q]);
        j' := e;
      } else {
        PrefixProduces(cs, n, j, m.keys[q]);
      }
      CollectFirstPosition(cs[..n], p, q, j');
      var i :| 0 <= i < j' && Produces(cs[..n], i, m.keys[p]);
      PrefixProduces(cs, n, i, m.keys[p]);
    } else {
      var k := OutputName(c.name);
      assert m.keys == prev.keys + [k];
      assert m.keys[p] == prev.keys[p];
      assert m.keys[p] in prev.values;
      CollectKeys(cs[..n], m.keys[p]);
      var i :| 0 <= i < n && Produces(cs[..n], i, m.keys[p]);
      PrefixProduces(cs, n, i, m.keys[p]);
      if q == |prev.keys| {
        // the new key: no earlier upload produced it
        if j < n {
          PrefixProduces(cs, n, j, k);
          CollectKeys(cs[..n], k);
        }
        assert j == n;
      } else {
        assert m.keys[q] == prev.keys[q];
        assert m.keys[q] in prev.values;
        assert j < n;
        PrefixProduces(cs, n, j, m.keys[q]);
        CollectFirstPosition(cs[..n], p, q, j);
        var i' :| 0 <= i' < j && Produces(cs[..n], i', m.keys[p]);
        PrefixProduces(cs, n, i', m.keys[p]);
      }
    }
  }

  /** Without a Java runtime no upload contributes anything: nothing is stored. */
  lemma NoJavaNoFiles(docs: seq<Document>)
    requires BatchWellFormed(docs)
    requires forall i :: 0 <= i < |docs| ==> !docs[i].javaAvailable
    ensures Collect(Conversions(docs)).keys == []
  {
    var cs := Conversions(docs);
    var m := Collect(cs);
    forall i | 0 <= i < |cs|
      ensures cs[i].result.None?
    {
    }
    if m.keys != [] {
      assert m.keys[0] in m.values;
      CollectKeys(cs, m.keys[0]);
    }
  }
}
