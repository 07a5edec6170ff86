/** What a fetch returns, reduced to what the harvest looks at: how many
    features came back and which attribute columns they carry. */
module Records {

  datatype Option<T> = None | Some(value: T)

  /** A fetched feature table: its row count and its column names in order.
      Feature attributes and geometries are opaque. */
  datatype RecordSet = RecordSet(count: nat, columns: seq<string>)

  /** The columns kept in every accepted record set, in this order. */
  const KEEP_COLUMNS: seq<string> := ["gpu_doc_id", "partition", "nomfic", "geometry"]

  /** The names of keep that occur in cols, in the order of keep. */
  function Filter(keep: seq<string>, cols: seq<string>): (r: seq<string>)
    ensures |r| <= |keep|
  {
    if keep == [] then []
    else (if keep[0] in cols then [keep[0]] else []) + Filter(keep[1..], cols)
  }

  /** A name survives the filter exactly when it is both kept and present. */
  lemma {:induction false} FilterMembers(keep: seq<string>, cols: seq<string>)
    ensures forall c :: c in Filter(keep, cols) <==> c in keep && c in cols
  {
    if keep != [] {
      FilterMembers(keep[1..], cols);
      assert keep == [keep[0]] + keep[1..];
    }
  }

  /** s is obtained from t by deleting elements. */
  predicate IsSubsequence(s: seq<string>, t: seq<string>)
  {
    if s == [] then true
    else if t == [] then false
    else if s[0] == t[0] then IsSubsequence(s[1..], t[1..])
    else IsSubsequence(s, t[1..])
  }

  predicate NoDuplicates(s: seq<string>)
  {
    forall i, j :: 0 <= i < j < |s| ==> s[i] != s[j]
  }

  /** The filter keeps the order of keep: its result is a subsequence. */
  lemma {:induction false} FilterIsSubsequence(keep: seq<string>, cols: seq<string>)
    ensures IsSubsequence(Filter(keep, cols), keep)
  {
    if keep != [] {
      FilterIsSubsequence(keep[1..], cols);
      var rest := Filter(keep[1..], cols);
      var r := Filter(keep, cols);
      if keep[0] in cols {
        assert r == [keep[0]] + rest && r[1..] == rest;
      } else {
        assert r == rest;
        if rest != [] {
          FilterMembers(keep[1..], cols);
          assert rest[0] in rest && rest[0] != keep[0];
        }
      }
    }
  }

  lemma {:induction false} SubsequenceMembers(s: seq<string>, t: seq<string>, c: string)
    requires IsSubsequence(s, t) && c in s
    ensures c in t
  {
    if s[0] == t[0] {
      if c != s[0] {
        SubsequenceMembers(s[1..], t[1..], c);
      }
    } else {
      SubsequenceMembers(s, t[1..], c);
    }
  }

  /** The filter is the only ordered selection from a duplicate-free keep
      list with exactly the members of keep that occur in cols. */
  lemma {:induction false} FilterUnique(keep: seq<string>, cols: seq<string>, r: seq<string>)
    requires NoDuplicates(keep)
    requires IsSubsequence(r, keep)
    requires forall c :: c in r <==> c in keep && c in cols
    ensures r == Filter(keep, cols)
  {
    if keep != [] {
      var k := keep[0];
      var tail := keep[1..];
      assert k !in tail by {
        forall i | 0 <= i < |tail| ensures tail[i] != k {
          assert tail[i] == keep[i + 1];
        }
      }
      assert NoDuplicates(tail) by {
        forall i, j | 0 <= i < j < |tail| ensures tail[i] != tail[j] {
          assert tail[i] == keep[i + 1] && tail[j] == keep[j + 1];
        }
      }
      if r != [] && r[0] == k {
        var r' := r[1..];
        assert k !in r' by {
          if k in r' {
            SubsequenceMembers(r', tail, k);
          }
        }
        forall c ensures c in r' <==> c in tail && c in cols {
          if c in r' {
            SubsequenceMembers(r', tail, c);
          }
          if c in tail && c in cols {
            assert c in r && c != k;
          }
        }
        FilterUnique(tail, cols, r');
        assert r == [k] + r';
      } else {
        assert k !in r by {
          if k in r {
            SubsequenceMembers(r, tail, k);
          }
        }
        forall c ensures c in r <==> c in tail && c in cols {
          if c in r {
            SubsequenceMembers(r, tail, c);
          }
        }
        FilterUnique(tail, cols, r);
      }
    }
  }

  /** The column selection applied to an accepted record set: the rows are
      untouched, only the listed columns that are present survive. */
  function KeepColumns(rs: RecordSet): (kept: RecordSet)
    ensures kept.count == rs.count
  {
    RecordSet(rs.count, Filter(KEEP_COLUMNS, rs.columns))
  }

  /** The kept columns are exactly the present ones among gpu_doc_id,
      partition, nomfic and geometry, in that order, without repeats. */
  lemma KeepColumnsSelects(rs: RecordSet)
    ensures forall c :: c in KeepColumns(rs).columns <==> c in KEEP_COLUMNS && c in rs.columns
    ensures IsSubsequence(KeepColumns(rs).columns, KEEP_COLUMNS)
    ensures forall r ::
      (IsSubsequence(r, KEEP_COLUMNS) && (forall c :: c in r <==> c in KEEP_COLUMNS && c in rs.columns))
      ==> r == KeepColumns(rs).columns
  {
    FilterMembers(KEEP_COLUMNS, rs.columns);
    FilterIsSubsequence(KEEP_COLUMNS, rs.columns);
    forall r | IsSubsequence(r, KEEP_COLUMNS) &&
      (forall c :: c in r <==> c in KEEP_COLUMNS && c in rs.columns)
      ensures r == KeepColumns(rs).columns
    {
      FilterUnique(KEEP_COLUMNS, rs.columns, r);
    }
  }

  /** A table with columns gpu_doc_id, libelle, geometry, partition keeps
      gpu_doc_id, partition, geometry. */
  lemma KeepColumnsExample(rs: RecordSet)
    requires rs == RecordSet(12, ["gpu_doc_id", "libelle", "geometry", "partition"])
    ensures KeepColumns(rs).count == 12
    ensures |KeepColumns(rs).columns| == 3
    ensures KeepColumns(rs).columns[0] == "gpu_doc_id"
    ensures KeepColumns(rs).columns[1] == "partition"
    ensures KeepColumns(rs).columns[2] == "geometry"
  {
    var cols := rs.columns;
    assert cols[0] == "gpu_doc_id" && cols[2] == "geometry" && cols[3] == "partition";
    assert "nomfic" !in cols by {
      assert forall i :: 0 <= i < |cols| ==> cols[i][0] != 'n';
    }
    var k3 := Filter(KEEP_COLUMNS[3..], cols);
    assert k3 == ["geometry"];
    var k2 := Filter(KEEP_COLUMNS[2..], cols);
    assert k2 == k3;
    var k1 := Filter(KEEP_COLUMNS[1..], cols);
    assert k1 == ["partition"] + k2;
    assert Filter(KEEP_COLUMNS, cols) == ["gpu_doc_id"] + k1;
  }
}
