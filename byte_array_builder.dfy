/** ByteArrayBuilder: bytes of a stream of unknown length collected in
    chunks of a fixed allocation size, joined into one array on demand. */
module ByteArrays {
  import opened Failures

  const DEFAULT_ALLOCATION_SIZE := 1024

  /** Byte sequences one after the other. */
  function Flatten(parts: seq<seq<bv8>>): seq<bv8> {
    if |parts| == 0 then [] else Flatten(parts[..|parts| - 1]) + parts[|parts| - 1]
  }

  /** Joining one more part appends its bytes. */
  lemma FlattenStep(parts: seq<seq<bv8>>, k: int)
    requires 0 <= k < |parts|
    ensures Flatten(parts[..k + 1]) == Flatten(parts[..k]) + parts[k]
  {
    assert parts[..k + 1][..k] == parts[..k];
  }

  /** Parts of one size join to a multiple of it. */
  lemma {:induction false} FlattenLength(parts: seq<seq<bv8>>, size: int)
    requires forall i :: 0 <= i < |parts| ==> |parts[i]| == size
    ensures |Flatten(parts)| == |parts| * size
  {
    if |parts| > 0 {
      FlattenLength(parts[..|parts| - 1], size);
      assert (|parts| - 1) * size + size == |parts| * size;
    }
  }

  class ByteArrayBuilder {
    const allocationSize: int
    var buildingArraySize: int
    var buildingArray: array<bv8>
    var builtArrays: array<array?<bv8>>

    /** The bytes appended so far. */
    ghost var contents: seq<bv8>
    /** The bytes of each sealed chunk, in order. */
    ghost var sealed: seq<seq<bv8>>
    ghost var Repr: set<object>

    /** Every sealed chunk is full and none is the array being filled. */
    ghost predicate Valid()
      reads this, Repr
    {
      this in Repr && buildingArray in Repr && builtArrays in Repr
      && builtArrays as object != buildingArray as object
      && allocationSize >= 1 && buildingArray.Length == allocationSize
      && 0 <= buildingArraySize <= buildingArray.Length
      && |sealed| == builtArrays.Length
      && (forall i :: 0 <= i < builtArrays.Length ==>
            builtArrays[i] != null && builtArrays[i] in Repr && builtArrays[i] != buildingArray
            && builtArrays[i][..] == sealed[i] && |sealed[i]| == allocationSize)
      && contents == Flatten(sealed) + buildingArray[..buildingArraySize]
    }

    constructor (allocationSize: int)
      requires allocationSize > 0
      ensures Valid() && fresh(Repr) && contents == [] && this.allocationSize == allocationSize
    {
      this.allocationSize := allocationSize;
      buildingArray := new bv8[allocationSize];
      buildingArraySize := 0;
      builtArrays := new array?<bv8>[0];
      contents := [];
      sealed := [];
      new;
      Repr := {this, buildingArray, builtArrays};
    }

    /** The constructor taking an allocation size, which must be positive. */
    static method New(allocationSize: int) returns (r: Result<ByteArrayBuilder>)
      ensures allocationSize <= 0 ==> r == Err(NonPositiveAllocation)
      ensures allocationSize > 0 ==>
                r.Ok? && fresh(r.value) && fresh(r.value.Repr) && r.value.Valid()
                && r.value.contents == [] && r.value.allocationSize == allocationSize
    {
      if allocationSize <= 0 {
        return Err(NonPositiveAllocation);
      }
      var b := new ByteArrayBuilder(allocationSize);
      r := Ok(b);
    }

    /** The constructor without arguments. */
    static method NewDefault() returns (b: ByteArrayBuilder)
      ensures fresh(b) && fresh(b.Repr) && b.Valid() && b.contents == []
      ensures b.allocationSize == DEFAULT_ALLOCATION_SIZE
    {
      b := new ByteArrayBuilder(DEFAULT_ALLOCATION_SIZE);
    }

    /** `resetBuildingArray`: a new, empty chunk. */
    method ResetBuildingArray()
      requires allocationSize >= 0
      modifies this`buildingArray, this`buildingArraySize
      ensures fresh(buildingArray) && buildingArray.Length == allocationSize && buildingArraySize == 0
    {
      buildingArray := new bv8[allocationSize];
      buildingArraySize := 0;
    }

    /** `append`.  A full chunk is sealed first, behind the ones sealed
        before, and a new one started. */
    method Append(b: bv8)
      requires Valid()
      modifies Repr
      ensures Valid() && fresh(Repr - old(Repr))
      ensures contents == old(contents) + [b]
      ensures old(buildingArraySize) < old(buildingArray.Length) ==> builtArrays[..] == old(builtArrays[..])
      ensures old(buildingArraySize) == old(buildingArray.Length) ==>
                builtArrays[..] == old(builtArrays[..]) + [old(buildingArray)]
    {
      if buildingArraySize >= buildingArray.Length {
        Seal();
      }
      ghost var chunks, filled := builtArrays[..], buildingArray[..buildingArraySize];
      buildingArray[buildingArraySize] := b;
      assert builtArrays[..] == chunks;
      assert buildingArray[..buildingArraySize + 1] == filled + [b];
      buildingArraySize := buildingArraySize + 1;
      contents := contents + [b];
    }

    /** The first half of `append` on a full chunk: the chunk joins the
        sealed ones and a new one is started. */
    method Seal()
      requires Valid() && buildingArraySize == buildingArray.Length
      modifies this
      ensures Valid() && fresh(Repr - old(Repr)) && contents == old(contents)
      ensures builtArrays[..] == old(builtArrays[..]) + [old(buildingArray)]
      ensures fresh(buildingArray) && buildingArraySize == 0
    {
      ghost var chunks, full := builtArrays[..], buildingArray;
      var nBuiltArrays := Extended(builtArrays, buildingArray);
      assert nBuiltArrays[..] == chunks + [full];
      assert full[..buildingArraySize] == full[..];
      FlattenStep(sealed + [full[..]], |sealed|);
      assert (sealed + [full[..]])[..|sealed|] == sealed;
      assert (sealed + [full[..]])[..|sealed| + 1] == sealed + [full[..]];
      sealed := sealed + [full[..]];
      builtArrays := nBuiltArrays;
      ResetBuildingArray();
      Repr := Repr + {nBuiltArrays, buildingArray};
      forall i | 0 <= i < builtArrays.Length
        ensures builtArrays[i] != null && builtArrays[i] in Repr && builtArrays[i] != buildingArray
                && builtArrays[i][..] == sealed[i] && |sealed[i]| == allocationSize
      {
        assert builtArrays[i] == (chunks + [full])[i];
      }
    }

    /** The reallocation in `append`: a copy of the sealed chunks, one
        longer, with `last` in the new slot. */
    static method Extended(chunks: array<array?<bv8>>, last: array<bv8>) returns (n: array<array?<bv8>>)
      ensures fresh(n) && n[..] == chunks[..] + [last]
    {
      n := new array?<bv8>[chunks.Length + 1];
      for index := 0 to chunks.Length
        invariant n[..index] == chunks[..index]
      {
        n[index] := chunks[index];
      }
      n[n.Length - 1] := last;
    }

    /** `length`: all sealed chunks are full. */
    function Length(): (n: int)
      requires Valid()
      reads this, Repr
      ensures n == |contents|
    {
      FlattenLength(sealed, allocationSize);
      builtArrays.Length * allocationSize + buildingArraySize
    }

    /** `toByteArray`: a new array holding the bytes appended so far. */
    method ToByteArray() returns (r: array<bv8>)
      requires Valid()
      ensures fresh(r) && r[..] == contents
    {
      r := new bv8[Length()];
      var resultArrayIndex := PutBuiltArrays(r);
      Put(r, resultArrayIndex, buildingArray, buildingArraySize);
      resultArrayIndex := resultArrayIndex + buildingArraySize;
      assert r[..] == r[..resultArrayIndex];
    }

    /** The outer loop of `toByteArray`: the sealed chunks in order from the
        start of `r`. */
    method PutBuiltArrays(r: array<bv8>) returns (resultArrayIndex: int)
      requires Valid() && r !in Repr && r.Length == Length()
      modifies r
      ensures resultArrayIndex == |Flatten(sealed)| && resultArrayIndex + buildingArraySize == r.Length
      ensures r[..resultArrayIndex] == Flatten(sealed)
    {
      resultArrayIndex := 0;
      for k := 0 to builtArrays.Length
        invariant forall i :: 0 <= i < builtArrays.Length ==> builtArrays[i][..] == sealed[i]
        invariant resultArrayIndex == |Flatten(sealed[..k])| <= |Flatten(sealed)|
        invariant r[..resultArrayIndex] == Flatten(sealed[..k])
      {
        var builtArray := builtArrays[k];
        FlattenStep(sealed, k);
        FlattenPrefixLength(sealed, k + 1);
        Put(r, resultArrayIndex, builtArray, builtArray.Length);
        resultArrayIndex := resultArrayIndex + builtArray.Length;
      }
      assert sealed[..|sealed|] == sealed;
    }
  }

  /** The first `count` bytes of `source` written to `target` from position
      `pos` on, one at a time. */
  method Put(target: array<bv8>, pos: int, source: array<bv8>, count: int)
    requires target != source && 0 <= pos && 0 <= count <= source.Length && pos + count <= target.Length
    modifies target
    ensures target[..pos + count] == old(target[..pos]) + source[..count]
  {
    var index := 0;
    while index < count
      invariant 0 <= index <= count
      invariant target[..pos + index] == old(target[..pos]) + source[..index]
    {
      target[pos + index] := source[index];
      assert source[..index + 1] == source[..index] + [source[index]];
      index := index + 1;
    }
  }

  /** A prefix of the parts joins to no more bytes than all of them. */
  lemma {:induction false} FlattenPrefixLength(parts: seq<seq<bv8>>, k: int)
    requires 0 <= k <= |parts|
    ensures |Flatten(parts[..k])| <= |Flatten(parts)|
    decreases |parts| - k
  {
    if k < |parts| {
      FlattenPrefixLength(parts, k + 1);
      assert parts[..k + 1][..k] == parts[..k];
    } else {
      assert parts[..k] == parts;
    }
  }

  /** Appending a sequence of bytes one by one and joining gives back that
      sequence, twice in a row. */
  method RoundTrip(allocationSize: int, data: seq<bv8>) returns (r: Result<(array<bv8>, array<bv8>)>)
    ensures allocationSize <= 0 ==> r == Err(NonPositiveAllocation)
    ensures allocationSize > 0 ==> r.Ok? && r.value.0[..] == data && r.value.1[..] == data
  {
    var created := ByteArrayBuilder.New(allocationSize);
    if created.Err? {
      return Err(created.error);
    }
    var builder := created.value;
    for i := 0 to |data|
      invariant builder.Valid() && fresh(builder.Repr)
      invariant builder.contents == data[..i]
    {
      builder.Append(data[i]);
      assert data[..i + 1] == data[..i] + [data[i]];
    }
    assert data[..|data|] == data;
    var first := builder.ToByteArray();
    var second := builder.ToByteArray();
    r := Ok((first, second));
  }
}
