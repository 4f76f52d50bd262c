/** The part of the native OpenGL state the resource classes touch.  Each
    method stands for one GL call; the fields record what those calls leave
    behind, so that a contract can say which calls an operation made. */
module GlNative {
  import opened JavaInt

  /** The contents of a buffer object, as `glBufferData` copied them. */
  datatype BufferData = Floats(floats: seq<real>) | Ints(ints: seq<int32>)

  class Gl {
    /** Names returned by a `glGen*`/`glCreate*` call and not yet deleted. */
    var live: set<int>
    /** The next name to hand out; every live name is below it. */
    var next: int
    /** `glUseProgram` */
    var program: int
    /** `glBindVertexArray` */
    var vertexArray: int
    /** Attribute indices switched on by `glEnableVertexAttribArray`. */
    var enabledAttribs: set<int>
    /** `glActiveTexture`: the texture unit later texture calls apply to. */
    var activeUnit: nat
    /** `glBindTexture`: the texture bound to each unit (0 for none). */
    var unitBinding: map<nat, int>
    /** `glTexParameteri`: wrap mode and resize filter of each texture. */
    var textureParams: map<int, (int, int)>
    /** `glTexImage2D`: the RGBA bytes uploaded to each texture. */
    var textureImages: map<int, seq<bv8>>
    /** The contents of each buffer object. */
    var bufferData: map<int, BufferData>
    /** `glVertexAttribPointer`, per vertex array object and attribute index:
        the buffer read and the number of floats per vertex. */
    var attribPointers: map<(int, int), (int, int)>
    /** The vertex counts of the `glDrawElements` calls, in order. */
    var draws: seq<int>

    ghost predicate Valid()
      reads this
    {
      next > 0 && forall h :: h in live ==> 0 < h < next
    }

    constructor ()
      ensures Valid() && live == {} && program == 0 && vertexArray == 0
      ensures enabledAttribs == {} && unitBinding == map[] && draws == []
    {
      live, next := {}, 1;
      program, vertexArray := 0, 0;
      enabledAttribs := {};
      activeUnit := 0;
      unitBinding := map[];
      textureParams, textureImages := map[], map[];
      bufferData, attribPointers := map[], map[];
      draws := [];
    }

    /** `glCreateShader`, `glCreateProgram`, `glGenTextures`,
        `glGenVertexArrays`, `glGenBuffers`: a fresh non-zero name. */
    method Gen() returns (h: int)
      requires Valid()
      modifies this`live, this`next
      ensures Valid()
      ensures h > 0 && h !in old(live) && live == old(live) + {h}
    {
      h := next;
      next := next + 1;
      live := live + {h};
    }

    /** `glDeleteShader`, `glDeleteProgram`, `glDeleteTextures`,
        `glDeleteVertexArrays`, `glDeleteBuffers`. */
    method Release(h: int)
      requires Valid()
      modifies this`live
      ensures Valid() && live == old(live) - {h}
    {
      live := live - {h};
    }

    method UseProgram(p: int)
      modifies this`program
      ensures program == p
    {
      program := p;
    }

    method BindVertexArray(v: int)
      modifies this`vertexArray
      ensures vertexArray == v
    {
      vertexArray := v;
    }

    method EnableVertexAttribArray(index: int)
      modifies this`enabledAttribs
      ensures enabledAttribs == old(enabledAttribs) + {index}
    {
      enabledAttribs := enabledAttribs + {index};
    }

    method DisableVertexAttribArray(index: int)
      modifies this`enabledAttribs
      ensures enabledAttribs == old(enabledAttribs) - {index}
    {
      enabledAttribs := enabledAttribs - {index};
    }

    method ActiveTexture(unit: nat)
      modifies this`activeUnit
      ensures activeUnit == unit
    {
      activeUnit := unit;
    }

    /** `glBindTexture` on the active unit. */
    method BindTexture(t: int)
      modifies this`unitBinding
      ensures unitBinding == old(unitBinding)[activeUnit := t]
    {
      unitBinding := unitBinding[activeUnit := t];
    }

    /** The four `glTexParameteri` calls on texture `t`. */
    method TexParameters(t: int, wrapMode: int, resizeFilter: int)
      modifies this`textureParams
      ensures textureParams == old(textureParams)[t := (wrapMode, resizeFilter)]
    {
      textureParams := textureParams[t := (wrapMode, resizeFilter)];
    }

    /** `glTexImage2D` on texture `t`. */
    method TexImage(t: int, rgba: seq<bv8>)
      modifies this`textureImages
      ensures textureImages == old(textureImages)[t := rgba]
    {
      textureImages := textureImages[t := rgba];
    }

    /** `glBindBuffer` followed by `glBufferData`. */
    method BufferDataOf(b: int, data: BufferData)
      modifies this`bufferData
      ensures bufferData == old(bufferData)[b := data]
    {
      bufferData := bufferData[b := data];
    }

    /** `glVertexAttribPointer`, recorded in the bound vertex array object. */
    method VertexAttribPointer(index: int, buffer: int, size: int)
      modifies this`attribPointers
      ensures attribPointers == old(attribPointers)[(vertexArray, index) := (buffer, size)]
    {
      attribPointers := attribPointers[(vertexArray, index) := (buffer, size)];
    }

    method DrawElements(count: int)
      modifies this`draws
      ensures draws == old(draws) + [count]
    {
      draws := draws + [count];
    }
  }
}
