/**
 * The in-memory embedding cache rebuilt by `load_encodings`: three parallel
 * lists (encodings, ids, names) built from the student rows, skipping every
 * row whose stored blob does not deserialise. Deserialisation (`pickle.loads`)
 * is a given partial function `unpickle`; the `SELECT` is the `rows` argument.
 */
module Store {
  import opened Wrappers

  type Blob = seq<bv8>

  /** A face embedding: the library's vector of floating-point components. */
  type Encoding = seq<real>

  /** One row of `SELECT id, name, embedding FROM students`. */
  datatype StudentRow = StudentRow(id: string, name: string, embedding: Blob)

  /** Index i of the three cached lists, read together. */
  datatype Profile = Profile(encoding: Encoding, id: string, name: string)

  /** Whether a row's blob deserialises. */
  predicate Decodes(r: StudentRow, unpickle: Blob -> Option<Encoding>)
  {
    unpickle(r.embedding).Some?
  }

  /** The profiles a reload yields from `rows`. */
  function Loaded(rows: seq<StudentRow>, unpickle: Blob -> Option<Encoding>): seq<Profile>
  {
    if rows == [] then []
    else
      var r := rows[|rows| - 1];
      Loaded(rows[..|rows| - 1], unpickle) +
        (match unpickle(r.embedding)
         case Some(e) => [Profile(e, r.id, r.name)]
         case None => [])
  }

  /** The positions of the rows whose blob deserialises, in increasing order. */
  function DecodedRows(rows: seq<StudentRow>, unpickle: Blob -> Option<Encoding>): seq<nat>
  {
    if rows == [] then []
    else DecodedRows(rows[..|rows| - 1], unpickle) + (if Decodes(rows[|rows| - 1], unpickle) then [|rows| - 1] else [])
  }

  /** The three lists read as one list of profiles. */
  function Zip(encodings: seq<Encoding>, ids: seq<string>, names: seq<string>): (ps: seq<Profile>)
    requires |encodings| == |ids| == |names|
  {
    seq(|encodings|, i requires 0 <= i < |encodings| => Profile(encodings[i], ids[i], names[i]))
  }

  lemma {:induction false} LoadedAppend(rows: seq<StudentRow>, more: seq<StudentRow>, unpickle: Blob -> Option<Encoding>)
    ensures Loaded(rows + more, unpickle) == Loaded(rows, unpickle) + Loaded(more, unpickle)
    decreases |more|
  {
    if more == [] {
      assert rows + more == rows;
    } else {
      var init := more[..|more| - 1];
      assert (rows + more)[..|rows + more| - 1] == rows + init;
      LoadedAppend(rows, init, unpickle);
    }
  }

  /**
   * A reload keeps exactly the rows whose blob deserialises, in row order:
   * profile k comes from row `DecodedRows(rows)[k]` (its id, its name and its
   * deserialised blob), those positions increase strictly, and every row
   * whose blob deserialises is among them.
   */
  lemma {:induction false} LoadedFromRows(rows: seq<StudentRow>, unpickle: Blob -> Option<Encoding>)
    ensures |DecodedRows(rows, unpickle)| == |Loaded(rows, unpickle)|
    ensures forall k :: 0 <= k < |Loaded(rows, unpickle)| ==>
              var j := DecodedRows(rows, unpickle)[k];
              j < |rows| && unpickle(rows[j].embedding) == Some(Loaded(rows, unpickle)[k].encoding) &&
              Loaded(rows, unpickle)[k].id == rows[j].id && Loaded(rows, unpickle)[k].name == rows[j].name
    ensures forall k1, k2 :: 0 <= k1 < k2 < |DecodedRows(rows, unpickle)| ==>
              DecodedRows(rows, unpickle)[k1] < DecodedRows(rows, unpickle)[k2]
    ensures forall j :: 0 <= j < |rows| ==> (Decodes(rows[j], unpickle) <==> j in DecodedRows(rows, unpickle))
  {
    if rows != [] {
      var init := rows[..|rows| - 1];
      LoadedFromRows(init, unpickle);
      forall j | 0 <= j < |init| ensures rows[j] == init[j] { }
    }
  }

  /** The number of profiles loaded is the number of rows whose blob deserialises. */
  lemma {:induction false} LoadedCount(rows: seq<StudentRow>, unpickle: Blob -> Option<Encoding>)
    ensures |Loaded(rows, unpickle)| == |DecodingPositions(rows, unpickle)|
  {
    if rows != [] {
      var n := |rows| - 1;
      var init := rows[..n];
      LoadedCount(init, unpickle);
      assert |Loaded(rows, unpickle)| == |Loaded(init, unpickle)| + (if Decodes(rows[n], unpickle) then 1 else 0);
      forall j | 0 <= j < n ensures rows[j] == init[j] { }
      var before := DecodingPositions(init, unpickle);
      var after := DecodingPositions(rows, unpickle);
      assert n !in before;
      if Decodes(rows[n], unpickle) {
        assert after == before + {n};
      } else {
        assert after == before;
      }
    } else {
      assert DecodingPositions(rows, unpickle) == {};
    }
  }

  /** The positions of the rows whose blob deserialises, as a set. */
  ghost function DecodingPositions(rows: seq<StudentRow>, unpickle: Blob -> Option<Encoding>): set<nat>
  {
    set j: nat | j < |rows| && Decodes(rows[j], unpickle)
  }

  /** The number of cached profiles is the number of rows whose blob deserialises. */
  lemma {:induction false} AllDecodableAllLoaded(rows: seq<StudentRow>, unpickle: Blob -> Option<Encoding>)
    requires forall j :: 0 <= j < |rows| ==> Decodes(rows[j], unpickle)
    ensures |Loaded(rows, unpickle)| == |rows|
  {
    if rows != [] {
      AllDecodableAllLoaded(rows[..|rows| - 1], unpickle);
    }
  }

  /**
   * A row whose blob fails to deserialise is skipped wherever it stands; the
   * other rows load exactly as they would without it.
   */
  lemma {:induction false} CorruptRowSkipped(rows: seq<StudentRow>, k: nat, bad: StudentRow, unpickle: Blob -> Option<Encoding>)
    requires k <= |rows|
    requires !Decodes(bad, unpickle)
    ensures Loaded(rows[..k] + [bad] + rows[k..], unpickle) == Loaded(rows, unpickle)
  {
    var front, back := rows[..k], rows[k..];
    assert [bad][..0] == [];
    assert Loaded([bad], unpickle) == [];
    LoadedAppend(front + [bad], back, unpickle);
    LoadedAppend(front, [bad], unpickle);
    LoadedAppend(front, back, unpickle);
    assert front + back == rows;
  }

  /** The process-wide cache: three parallel lists replaced wholesale on every reload. */
  class EmbeddingStore {
    var encodings: seq<Encoding>
    var ids: seq<string>
    var names: seq<string>

    /** The three lists stay aligned. */
    ghost predicate Valid()
      reads this
    {
      |encodings| == |ids| == |names|
    }

    /** The cached profiles, index by index. */
    function Profiles(): seq<Profile>
      reads this
      requires Valid()
    {
      Zip(encodings, ids, names)
    }

    /** The empty cache before the first load. */
    constructor ()
      ensures Valid() && Profiles() == []
    {
      encodings, ids, names := [], [], [];
    }

    /**
     * `load_encodings`: clears the three lists, then appends one entry to
     * each for every row whose blob deserialises. The new cache depends only
     * on `rows`, not on what was cached before.
     */
    method Reload(rows: seq<StudentRow>, unpickle: Blob -> Option<Encoding>)
      modifies this
      ensures Valid() && Profiles() == Loaded(rows, unpickle)
    {
      encodings, ids, names := [], [], [];
      var i := 0;
      while i < |rows|
        invariant 0 <= i <= |rows|
        invariant Valid() && Profiles() == Loaded(rows[..i], unpickle)
      {
        var r := rows[i];
        assert rows[..i + 1][..i] == rows[..i];
        match unpickle(r.embedding) {
          case Some(e) =>
            encodings := encodings + [e];
            ids := ids + [r.id];
            names := names + [r.name];
          case None =>
        }
        i := i + 1;
      }
      assert rows[..i] == rows;
    }
  }
}
