/** OGLVertexArray: a float array and the number of floats per vertex,
    accepted only when the array splits into whole vertices. */
module VertexArrays {
  import opened Failures

  /** The array is the caller's own object, kept by reference. */
  datatype VertexArray = VertexArray(vertexData: array<real>, vertexSize: int)
  {
    /** What the constructor checked. */
    predicate Valid() {
      vertexSize >= 1 && vertexData.Length % vertexSize == 0
    }

    /** `getTotalSize`: the number of whole vertices in the data. */
    function TotalSize(): (n: int)
      requires Valid()
      ensures n >= 0 && n * vertexSize == vertexData.Length
    {
      vertexData.Length / vertexSize
    }
  }

  /** The constructor, with its checks in the source's order. */
  function NewVertexArray(vertexData: array?<real>, vertexSize: int): (r: Result<VertexArray>)
    ensures vertexData == null ==> r == Err(NullArgument)
    ensures vertexData != null && vertexSize < 1 ==> r == Err(InvalidVertexSize)
    ensures vertexData != null && vertexSize >= 1 && vertexData.Length % vertexSize != 0 ==>
              r == Err(VertexDataMismatch)
    ensures r.Ok? ==> r.value.vertexData == vertexData && r.value.vertexSize == vertexSize && r.value.Valid()
  {
    if vertexData == null then Err(NullArgument)
    else if vertexSize < 1 then Err(InvalidVertexSize)
    else if vertexData.Length % vertexSize != 0 then Err(VertexDataMismatch)
    else Ok(VertexArray(vertexData, vertexSize))
  }

  /** Every accepted vertex size divides the data into `TotalSize()` vertices,
      and no other count does. */
  lemma {:induction false} TotalSizeUnique(v: VertexArray, n: int)
    requires v.Valid() && n * v.vertexSize == v.vertexData.Length
    ensures n == v.TotalSize()
  {
    var t := v.TotalSize();
    assert (n - t) * v.vertexSize == 0;
  }

  /** The constructor accepts exactly when the data is present and made of
      whole vertices of a positive size. */
  lemma NewVertexArrayAccepts(vertexData: array?<real>, vertexSize: int)
    ensures NewVertexArray(vertexData, vertexSize).Ok? <==>
      vertexData != null && vertexSize >= 1 &&
      exists n: nat :: n * vertexSize == vertexData.Length
  {
    if vertexData != null && vertexSize >= 1 {
      if vertexData.Length % vertexSize == 0 {
        var n: nat := vertexData.Length / vertexSize;
        assert n * vertexSize == vertexData.Length;
      } else {
        forall n: nat | n * vertexSize == vertexData.Length
          ensures false
        {
          assert vertexData.Length % vertexSize == (n * vertexSize) % vertexSize;
          ModOfMultiple(n, vertexSize);
        }
      }
    }
  }

  lemma ModOfMultiple(n: nat, m: int)
    requires m >= 1
    ensures (n * m) % m == 0
  {
    var q, r := (n * m) / m, (n * m) % m;
    assert m * (n - q) == r;
    if n - q >= 1 {
      MulAtLeast(m, n - q);
    } else if n - q <= -1 {
      MulAtLeast(m, q - n);
      assert false;
    }
  }

  lemma MulAtLeast(m: int, k: int)
    requires m >= 1 && k >= 1
    ensures m * k >= m && m * -k <= -m
  {
  }
}
