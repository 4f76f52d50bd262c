/** The read-only scans the OGLVertexArrayObject constructor runs over its
    arguments, and what its index check accepts. */
module VaoValidation {
  import opened Failures
  import opened JavaInt
  import opened VertexArrays

  /** `containsNull`: some vertex array is missing. */
  method ContainsNull(arrays: seq<Option<VertexArray>>) returns (b: bool)
    ensures b <==> exists i :: 0 <= i < |arrays| && arrays[i].None?
  {
    for k := 0 to |arrays|
      invariant forall i :: 0 <= i < k ==> arrays[i].Some?
    {
      if arrays[k].None? {
        return true;
      }
    }
    return false;
  }

  /** `onlyPositiveValues`: despite the name, zero is allowed. */
  method OnlyPositiveValues(values: seq<int32>) returns (b: bool)
    ensures b <==> forall i :: 0 <= i < |values| ==> values[i] >= 0
  {
    for k := 0 to |values|
      invariant forall i :: 0 <= i < k ==> values[i] >= 0
    {
      if values[k] < 0 {
        return false;
      }
    }
    return true;
  }

  /** `m` is the value `getMaxValue` computes: the largest value, or
      `Integer.MIN_VALUE` when there is none. */
  predicate IsMaxValue(values: seq<int32>, m: int) {
    (forall i :: 0 <= i < |values| ==> values[i] as int <= m) &&
    (if |values| == 0 then m == INT_MIN else exists i :: 0 <= i < |values| && values[i] as int == m)
  }

  method MaxValue(values: seq<int32>) returns (m: int32)
    ensures IsMaxValue(values, m as int)
  {
    m := INT_MIN as int32;
    for k := 0 to |values|
      invariant forall i :: 0 <= i < k ==> values[i] <= m
      invariant k == 0 ==> m as int == INT_MIN
      invariant k > 0 ==> exists i :: 0 <= i < k && values[i] == m
    {
      if m < values[k] {
        m := values[k];
      }
    }
  }

  /** Every array is one the OGLVertexArray constructor accepted. */
  predicate AllValid(arrays: seq<VertexArray>) {
    forall j :: 0 <= j < |arrays| ==> arrays[j].Valid()
  }

  /** `m` is the value `getMinVertexArraySize` computes: the smallest vertex
      count, capped at `Integer.MAX_VALUE`, which is also the result for no
      arrays. */
  predicate IsMinVertexCount(arrays: seq<VertexArray>, m: int)
    requires AllValid(arrays)
  {
    m <= INT_MAX &&
    (forall j :: 0 <= j < |arrays| ==> m <= arrays[j].TotalSize()) &&
    (m == INT_MAX || exists j :: 0 <= j < |arrays| && arrays[j].TotalSize() == m)
  }

  method MinVertexCount(arrays: seq<VertexArray>) returns (m: int)
    requires AllValid(arrays)
    ensures IsMinVertexCount(arrays, m)
  {
    m := INT_MAX;
    for k := 0 to |arrays|
      invariant m <= INT_MAX
      invariant forall j :: 0 <= j < k ==> m <= arrays[j].TotalSize()
      invariant m == INT_MAX || exists j :: 0 <= j < k && arrays[j].TotalSize() == m
    {
      if m > arrays[k].TotalSize() {
        m := arrays[k].TotalSize();
      }
    }
  }

  /** What the constructor's check `getMaxValue(indices) >
      getMinVertexArraySize(vertexArrays)` lets through: no index exceeds
      the vertex count of any array. */
  predicate IndicesAtMostCounts(indices: seq<int32>, arrays: seq<VertexArray>)
    requires AllValid(arrays)
  {
    forall i, j :: 0 <= i < |indices| && 0 <= j < |arrays| ==> indices[i] as int <= arrays[j].TotalSize()
  }

  /** What drawing needs: every index names a vertex of every array. */
  predicate IndicesInBounds(indices: seq<int32>, arrays: seq<VertexArray>)
    requires AllValid(arrays)
  {
    forall i, j :: 0 <= i < |indices| && 0 <= j < |arrays| ==> indices[i] as int < arrays[j].TotalSize()
  }

  /** The check as written: the comparison of the two sentinel-guarded
      extremes accepts exactly the indices bounded by every vertex count,
      an index equal to a count included. */
  lemma {:induction false} IndexCheckAsWritten(indices: seq<int32>, arrays: seq<VertexArray>, max: int, min: int)
    requires AllValid(arrays)
    requires IsMaxValue(indices, max) && IsMinVertexCount(arrays, min)
    ensures max <= min <==> IndicesAtMostCounts(indices, arrays)
  {
    if IndicesAtMostCounts(indices, arrays) && |indices| > 0 && min < INT_MAX {
      var i :| 0 <= i < |indices| && indices[i] as int == max;
      var j :| 0 <= j < |arrays| && arrays[j].TotalSize() == min;
      assert indices[i] as int <= arrays[j].TotalSize();
    }
  }

  /** An index equal to the vertex count gets through: nine floats in
      vertices of three make three vertices, and index 3 is accepted. */
  lemma IndexEqualToCountAccepted(data: array<real>)
    requires data.Length == 9
    ensures var arrays := [VertexArray(data, 3)];
      AllValid(arrays) && arrays[0].TotalSize() == 3 &&
      IndicesAtMostCounts([0, 1, 3], arrays) && !IndicesInBounds([0, 1, 3], arrays)
  {
    var arrays := [VertexArray(data, 3)];
    assert arrays[0].TotalSize() == 3;
    var indices: seq<int32> := [0, 1, 3];
    assert indices[2] as int == 3;
  }

  /** The evidently intended check rejects when the maximum index reaches the
      minimum vertex count; with at least one vertex array it accepts
      exactly the in-bounds indices (a Java array holds at most
      `Integer.MAX_VALUE` elements). */
  predicate IndexCheckCorrected(max: int, min: int) {
    max < min
  }

  lemma {:induction false} IndexCheckCorrectedMeaning(indices: seq<int32>, arrays: seq<VertexArray>, max: int, min: int)
    requires AllValid(arrays) && |arrays| > 0
    requires forall j :: 0 <= j < |arrays| ==> arrays[j].vertexData.Length <= INT_MAX
    requires IsMaxValue(indices, max) && IsMinVertexCount(arrays, min)
    ensures IndexCheckCorrected(max, min) <==> IndicesInBounds(indices, arrays)
  {
    if IndicesInBounds(indices, arrays) && |indices| > 0 {
      var i :| 0 <= i < |indices| && indices[i] as int == max;
      assert indices[i] as int < arrays[0].TotalSize();
      if min < INT_MAX {
        var j :| 0 <= j < |arrays| && arrays[j].TotalSize() == min;
        assert indices[i] as int < arrays[j].TotalSize();
      } else {
        assert arrays[0].TotalSize() >= min;
      }
    }
  }
}
