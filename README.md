# TeaCore resource layer in Dafny

A model, with proofs, of the part of the TeaCore game library that owns native resources.

- **GLFW lifecycle.** `GLFWUtil` and `GLFWWindow` cover the one-shot init/terminate state of GLFW, the static list of open windows and the current context.
- **Monitors.** `GLFWMonitor` covers monitor objects and their process-wide cache.
- **Base class.** `OGLAllocatedData` is the base class of every GPU object and the static list through which `deleteAll` frees them.
- **GPU objects.** `OGLShader`, `OGLTexture`, `OGLVertexArrayObject` and the value class `OGLVertexArray` are the objects built on that base.
- **Byte buffer.** `ByteArrayBuilder` is the chunked byte buffer used by the resource loader.

## How the model is built

- **Statics become objects.** The Java statics become objects passed to the operations that use them:
  - `Glfw.Library` holds `initialized`/`terminated`.
  - `Glfw.Windows` holds the window list and the current context.
  - `GlfwMonitor.Monitors` holds the monitor cache.
  - `OpenGL.Registry` holds `instanceList`.
- **Native calls.** GL calls are methods of `GlNative.Gl`. Its fields record what they leave behind, such as live names, bindings, uploaded data and draws. Answers from the driver or the window system are parameters: compile status, window handle, reported sizes, cursor position, video mode and monitor list.
- **Exceptions.** A thrown exception becomes an `Outcome` or `Result` value. Constructors that can throw become static `Create` methods.
- **Inheritance.** Each subclass of `OGLAllocatedData` has its own `deleted` flag. `OpenGL.Entry` is a reference of static type `OGLAllocatedData`, tagged with its run-time class, so `deleteAll` dispatches on it as Java's virtual `delete()` does.
- **Owner context.** `getContext()` and `GLFWWindow.getCurrentContext()` do not appear in the source files of this model. The owner is the window whose context was current at construction, and destroying that window leaves no context current.
- **Where code and documentation disagree, the model follows the code:**
  - Window sizes up to 4096 inclusive are accepted.
  - `onlyPositiveValues` accepts zero.

## Model

| member | source | states |
|---|---|---|
| JavaInt.Half | src/com/teacore/glfw/GLFWWindow.java:79-80 | Java's `/ 2`: the quotient is truncated toward zero, so it is within one of half of `a`, on the side of zero |
| JavaInt.HalfDiffersFromEuclidean | src/com/teacore/glfw/GLFWWindow.java:79-80 | for every negative odd value the Java quotient is one more than Dafny's Euclidean one |
| JavaInt.DoubleToInt | src/com/teacore/glfw/GLFWWindow.java:164 | the `(int)` cast of the cursor coordinate lands in the `int` range; a value inside the range is truncated toward zero (the result is the integer part, on the side of zero), and a value at or beyond either end saturates to `INT_MAX` or `INT_MIN` |
| Glfw.Library.constructor | src/com/teacore/glfw/GLFWUtil.java:13-19 | the static initialiser: GLFW starts neither initialized nor terminated |
| Glfw.Library.Init | src/com/teacore/glfw/GLFWUtil.java:25-38 | fails with AlreadyTerminated, AlreadyInitialized or InitFailed in that order of checks; succeeds exactly when none applies and then marks GLFW initialized |
| Glfw.Library.Terminate | src/com/teacore/glfw/GLFWUtil.java:44-57 | fails with NotInitialized or AlreadyTerminated and changes nothing; otherwise every listed window is destroyed, the list is empty and GLFW is terminated |
| Glfw.Windows.constructor | src/com/teacore/glfw/GLFWWindow.java:19-23 | the static initialiser: the window list starts empty and no context is current |
| Glfw.Windows.CreateWindowed | src/com/teacore/glfw/GLFWWindow.java:50-91 | NotReady, IllegalDimensions (outside 2..4096) or CreationFailed (handle 0), with the window list untouched; on success a fresh live window is appended and made current, with the title (`""` for null), vsync interval and position centred on the primary monitor with Java division |
| Glfw.Windows.CreateFullScreen | src/com/teacore/glfw/GLFWWindow.java:104-145 | a valid monitor argument is used as is and the cache is not touched; otherwise the primary monitor of the (possibly filled) cache is used, and no monitor at all is NullPointer; on success the window is non-resizable, current, appended and centred on the chosen monitor's video mode |
| Glfw.Windows.DestroyAll | src/com/teacore/glfw/GLFWWindow.java:29-32 | every window of the old list is destroyed, the list ends empty, and the current context is dropped exactly when its window was listed |
| Glfw.Window.GetCursorX | src/com/teacore/glfw/GLFWWindow.java:153-165 | fails exactly on a destroyed window; otherwise the truncated cursor coordinate |
| Glfw.Window.GetCursorY | src/com/teacore/glfw/GLFWWindow.java:173-185 | as GetCursorX |
| Glfw.Window.GetWindowX | src/com/teacore/glfw/GLFWWindow.java:193-205 | fails exactly on a destroyed window; otherwise the position the window was placed at |
| Glfw.Window.GetWindowY | src/com/teacore/glfw/GLFWWindow.java:213-225 | as GetWindowX |
| Glfw.Window.GetWindowWidth | src/com/teacore/glfw/GLFWWindow.java:233-245 | fails exactly on a destroyed window; otherwise the width reported after creation |
| Glfw.Window.GetWindowHeight | src/com/teacore/glfw/GLFWWindow.java:253-265 | as GetWindowWidth |
| Glfw.Window.GetFrameWidth | src/com/teacore/glfw/GLFWWindow.java:273-285 | fails exactly on a destroyed window; otherwise the framebuffer width reported |
| Glfw.Window.GetFrameHeight | src/com/teacore/glfw/GLFWWindow.java:293-305 | as GetFrameWidth |
| Glfw.Window.MakeContextCurrent | src/com/teacore/glfw/GLFWWindow.java:311-316 | fails exactly on a destroyed window, leaving the context alone; otherwise this window becomes current |
| Glfw.Window.Update | src/com/teacore/glfw/GLFWWindow.java:322-328 | fails exactly on a destroyed window |
| Glfw.Window.Destroy | src/com/teacore/glfw/GLFWWindow.java:334-343 | a second destroy fails and changes nothing; the first marks the window destroyed, removes it from the list (and it is then in the list no more) and drops the current context if it was this window |
| Glfw.Window.IsCloseRequested | src/com/teacore/glfw/GLFWWindow.java:351-356 | fails exactly on a destroyed window; otherwise what the window system reports |
| Glfw.WindowScenario | src/com/teacore/glfw/GLFWWindow.java:233-245 | an 800x600 window reports width 800 while open; after destroy the query and a second destroy both fail with WindowDestroyed |
| GlfwMonitor.Monitor.constructor | src/com/teacore/glfw/GLFWMonitor.java:21-24 | a new monitor keeps its handle and is valid |
| GlfwMonitor.Monitors.constructor | src/com/teacore/glfw/GLFWMonitor.java:16 | the static field starts as null: no monitor cache yet |
| GlfwMonitor.Monitors.GetMonitors | src/com/teacore/glfw/GLFWMonitor.java:34-44 | a filled cache is returned unchanged; an empty one is filled with fresh, distinct, valid monitors, one per connected handle in order |
| GlfwMonitor.Monitors.GetPrimary | src/com/teacore/glfw/GLFWMonitor.java:52-57 | the first monitor of the (possibly just filled) cache, or null when none is connected |
| GlfwMonitor.Monitors.InvalidateAll | src/com/teacore/glfw/GLFWMonitor.java:62-68 | every monitor handed out by the cache becomes invalid and the cache is emptied |
| GlfwMonitor.CacheScenario | src/com/teacore/glfw/GLFWMonitor.java:34-68 | two queries share one array; after invalidation the old monitors are invalid and the next query hands out new, valid monitors none of which is an old one |
| OpenGL.AllocatedData.constructor | src/com/teacore/opengl/OGLAllocatedData.java:61-63 | a new object is not deleted |
| OpenGL.AllocatedData.Delete | src/com/teacore/opengl/OGLAllocatedData.java:77-79 | the base `delete` sets the deleted flag |
| OpenGL.Registry.constructor | src/com/teacore/opengl/OGLAllocatedData.java:13-17 | the static initialiser: the instance list starts empty |
| OpenGL.Registry.Register | src/com/teacore/opengl/OGLAllocatedData.java:24-27 | null leaves the list alone; anything else is appended |
| OpenGL.Registry.Unregister | src/com/teacore/opengl/OGLAllocatedData.java:36-38 | the first occurrence of the entry is removed (`ArrayList.remove(Object)`) |
| OpenGL.Registry.DeleteDispatch | src/com/teacore/opengl/OGLAllocatedData.java:47-48 | the virtual `delete()` on a live entry fails exactly for a shader or texture of another context; on success the entry is deleted, and a subclass has also unregistered itself |
| OpenGL.Registry.DeleteFront | src/com/teacore/opengl/OGLAllocatedData.java:44-51 | one pass of the loop, per kind of front entry: skipped, deleted in place, refused with the list unchanged, or self-unregistering, after which `remove(0)` takes off the next entry or throws |
| OpenGL.Registry.DeleteAllStep | src/com/teacore/opengl/OGLAllocatedData.java:44-51 | one pass only ever shortens the list from the front, and for distinct entries keeps the loop in step with `Walk` |
| OpenGL.Registry.DeleteAll | src/com/teacore/opengl/OGLAllocatedData.java:43-52 | only the front of the list is ever removed and success empties it; errors are WrongContext or IndexOutOfBounds; for distinct entries the outcome and the set of newly deleted entries are exactly those of `Walk` |
| OpenGL.Walk | src/com/teacore/opengl/OGLAllocatedData.java:43-52 | the as-written walk over the kinds of the entries; its record of deleted entries has one flag per entry |
| OpenGL.WalkDeletesOnlyLive | src/com/teacore/opengl/OGLAllocatedData.java:47-48 | an entry the walk deletes was live and its `delete()` succeeded |
| OpenGL.WalkAdvance | src/com/teacore/opengl/OGLAllocatedData.java:44-51 | what one entry contributes to the walk and where the walk continues, for each kind |
| OpenGL.WalkFinished | src/com/teacore/opengl/OGLAllocatedData.java:44 | a walk past the last entry has succeeded |
| OpenGL.WalkDropsFollower | src/com/teacore/opengl/OGLAllocatedData.java:48-50 | after a self-unregistering object, the next entry is removed without being deleted |
| OpenGL.WalkThrowsOnLast | src/com/teacore/opengl/OGLAllocatedData.java:48-50 | a live subclass object at the end of the list is deleted and then `remove(0)` throws IndexOutOfBounds |
| OpenGL.KindsAt | src/com/teacore/opengl/OGLAllocatedData.java:47-48 | each entry's kind of visit is read off the entry |
| OpenGL.DeleteAllDropsScenario | src/com/teacore/opengl/OGLAllocatedData.java:43-52 | with two live vertex array objects registered, `deleteAll` succeeds with the list empty but the second object not deleted |
| OpenGL.DeleteAllThrowsScenario | src/com/teacore/opengl/OGLAllocatedData.java:43-52 | with one live vertex array object registered, `deleteAll` deletes it and then fails with IndexOutOfBounds |
| OpenGL.Registry.SweepStep | src/com/teacore/opengl/OGLAllocatedData.java:44-51 | one pass of the intended loop keeps `Sweeping`: nothing unlisted appears, removed entries are deleted, deleted ones stay deleted, and a live entry of another context stays live; a pass that fails has found such an entry |
| OpenGL.Registry.DeleteAllCorrected | src/com/teacore/opengl/OGLAllocatedData.java:43-52 | the intended `deleteAll`: only listed entries remain; on success the list is empty and every entry is deleted; it fails only with WrongContext, and it fails exactly when some entry that was live at the start belongs to another context (an entry already deleted is skipped whatever its owner) |
| OpenGL.Shader.Create | src/com/teacore/opengl/OGLShader.java:29-70 | null sources, a failed vertex compile, a failed fragment compile and a failed link each give their own error and release every name created so far; on success three new, different names are live, the shader belongs to the current context and is registered |
| OpenGL.Shader.Use | src/com/teacore/opengl/OGLShader.java:77-85 | AlreadyDeleted, then WrongContext; succeeds exactly otherwise, and then the program is in use |
| OpenGL.Shader.StopUse | src/com/teacore/opengl/OGLShader.java:92-100 | as Use, and then no program is in use |
| OpenGL.Shader.GetUniformLocation | src/com/teacore/opengl/OGLShader.java:110-121 | NullArgument, AlreadyDeleted, WrongContext in that order; otherwise the location the driver answers |
| OpenGL.Shader.Delete | src/com/teacore/opengl/OGLShader.java:128-144 | AlreadyDeleted, then WrongContext, with nothing changed; otherwise deleted, unregistered and all three names released |
| OpenGL.Texture.Create | src/com/teacore/opengl/OGLTexture.java:37-81 | the constructor as written: NullArgument for a null argument; with power-of-two rounding it succeeds exactly when both sides already are powers of two of at least 2; on success the image's pixels are uploaded as RGBA with the wrap mode and filter, to a new name left unbound on unit 0; the texture is not registered, since the constructor never calls `register`, and it takes no registry |
| OpenGL.Texture.CreateFromScaled | src/com/teacore/opengl/OGLTexture.java:37-81 | the intended constructor: fails only on a null argument and then leaves the registry alone; on success it uploads the pixels of the image redrawn at the texture's size and appends the new texture to the registry |
| OpenGL.UnregisteredTextureScenario | src/com/teacore/opengl/OGLTexture.java:37-81 | a texture made by the constructor as written is not in the registry, and after `deleteAll` it is still live |
| OpenGL.RegisteredTextureScenario | src/com/teacore/opengl/OGLTexture.java:14-16 | a texture made by the intended constructor is registered, and the intended `deleteAll` then deletes it, succeeds and empties the list |
| OpenGL.Texture.Upload | src/com/teacore/opengl/OGLTexture.java:71-80 | a new name, bound to unit 0, given the parameters and the pixel bytes, then unbound |
| OpenGL.Texture.Bind | src/com/teacore/opengl/OGLTexture.java:90-103 | NullArgument, AlreadyDeleted, WrongContext in that order, with nothing changed; otherwise the slot becomes active, holds this texture and is remembered |
| OpenGL.Texture.Unbind | src/com/teacore/opengl/OGLTexture.java:110-119 | AlreadyDeleted, WrongContext, or NullPointer when never bound; otherwise the last slot is cleared, whatever it holds now |
| OpenGL.Texture.Delete | src/com/teacore/opengl/OGLTexture.java:144-158 | AlreadyDeleted, then WrongContext, with nothing changed; otherwise deleted, unregistered, the name released and the size read as zero |
| OpenGL.Present | src/com/teacore/opengl/OGLVertexArrayObject.java:32-33 | the vertex arrays of an argument without nulls, pointwise |
| OpenGL.Below | src/com/teacore/opengl/OGLVertexArrayObject.java:84-90 | exactly the numbers from 0 up to n |
| OpenGL.FreshHandlesExtend | src/com/teacore/opengl/OGLVertexArrayObject.java:169-175 | a name new to all earlier ones extends the set of new, distinct names |
| OpenGL.VertexBuffersExtend | src/com/teacore/opengl/OGLVertexArrayObject.java:169-175 | one more buffer attached at the next attribute index keeps the earlier buffers in place |
| OpenGL.VertexBuffersKeep | src/com/teacore/opengl/OGLVertexArrayObject.java:177-182 | filling the index buffer leaves the vertex buffers alone |
| OpenGL.VertexArrayObject.Create | src/com/teacore/opengl/OGLVertexArrayObject.java:29-55 | NullArgument, NegativeIndex, IndexOutOfRange in that order, with nothing changed, and it is accepted exactly when no index exceeds any vertex count; on success one new vertex array object, one new buffer per vertex array holding its data at the attribute index of its position, a last buffer holding the indices, everything unbound, the object registered |
| OpenGL.VertexArrayObject.Build | src/com/teacore/opengl/OGLVertexArrayObject.java:41-52 | the names, buffers and attribute pointers the constructor creates after its checks |
| OpenGL.VertexArrayObject.MakeVbos | src/com/teacore/opengl/OGLVertexArrayObject.java:47-48 | after the loop every vertex array has its own new buffer at its attribute index |
| OpenGL.VertexArrayObject.MakeVbo | src/com/teacore/opengl/OGLVertexArrayObject.java:169-175 | a new buffer in slot `index` holding the vertex data, attached as attribute `index` with the vertex size |
| OpenGL.VertexArrayObject.MakeIndices | src/com/teacore/opengl/OGLVertexArrayObject.java:177-182 | a new buffer in the last slot holding the indices |
| OpenGL.VertexArrayObject.Bind | src/com/teacore/opengl/OGLVertexArrayObject.java:61-66 | fails exactly when deleted; otherwise this object is bound |
| OpenGL.VertexArrayObject.Unbind | src/com/teacore/opengl/OGLVertexArrayObject.java:73-78 | fails exactly when deleted; otherwise nothing is bound |
| OpenGL.VertexArrayObject.Enable | src/com/teacore/opengl/OGLVertexArrayObject.java:84-90 | fails exactly when deleted; otherwise exactly the attribute indices of the vertex buffers are switched on in addition |
| OpenGL.VertexArrayObject.Disable | src/com/teacore/opengl/OGLVertexArrayObject.java:96-102 | fails exactly when deleted; otherwise exactly those indices are switched off |
| OpenGL.VertexArrayObject.Draw | src/com/teacore/opengl/OGLVertexArrayObject.java:108-113 | fails exactly when deleted; otherwise one draw of all indices |
| OpenGL.VertexArrayObject.Delete | src/com/teacore/opengl/OGLVertexArrayObject.java:120-131 | fails exactly when already deleted, changing nothing; otherwise deleted, unregistered, and the object's name and every buffer name released |
| OpenGL.CreateEmpty | src/com/teacore/opengl/OGLVertexArrayObject.java:29-55 | a vertex array object without arrays and indices is accepted and registered |
| VaoValidation.ContainsNull | src/com/teacore/opengl/OGLVertexArrayObject.java:133-139 | true exactly when some vertex array is null |
| VaoValidation.OnlyPositiveValues | src/com/teacore/opengl/OGLVertexArrayObject.java:141-147 | true exactly when no value is negative |
| VaoValidation.MaxValue | src/com/teacore/opengl/OGLVertexArrayObject.java:149-157 | an upper bound that is one of the values, or `Integer.MIN_VALUE` for none |
| VaoValidation.MinVertexCount | src/com/teacore/opengl/OGLVertexArrayObject.java:159-167 | a lower bound of the vertex counts, capped at `Integer.MAX_VALUE`, that is one of them unless capped |
| VaoValidation.IndexCheckAsWritten | src/com/teacore/opengl/OGLVertexArrayObject.java:38-39 | the check passes exactly when no index exceeds any vertex count |
| VaoValidation.IndexEqualToCountAccepted | src/com/teacore/opengl/OGLVertexArrayObject.java:38-39 | index 3 passes the check against an array of three vertices although no vertex 3 exists |
| VaoValidation.IndexCheckCorrectedMeaning | src/com/teacore/opengl/OGLVertexArrayObject.java:38-39 | with a strict comparison the check passes exactly when every index names a vertex of every array |
| VertexArrays.VertexArray.TotalSize | src/com/teacore/opengl/OGLVertexArray.java:59-61 | the number of whole vertices: times the vertex size it gives the data length |
| VertexArrays.NewVertexArray | src/com/teacore/opengl/OGLVertexArray.java:21-33 | NullArgument, InvalidVertexSize, VertexDataMismatch in that order; on success the array keeps the caller's data and size |
| VertexArrays.TotalSizeUnique | src/com/teacore/opengl/OGLVertexArray.java:59-61 | no other count of vertices fits the data |
| VertexArrays.NewVertexArrayAccepts | src/com/teacore/opengl/OGLVertexArray.java:21-33 | accepted exactly when the data is present and splits into whole vertices of a positive size |
| TexturePixels.NextPowerOfTwo | src/com/teacore/opengl/OGLTexture.java:160-167 | the smallest power of two that is at least 2 and at least the argument, within the `int` range |
| TexturePixels.SmallestPowerOfTwoIsLeast | src/com/teacore/opengl/OGLTexture.java:160-167 | that power of two is below or equal to every other candidate |
| TexturePixels.SmallestPowerOfTwoUnique | src/com/teacore/opengl/OGLTexture.java:160-167 | there is only one such power of two |
| TexturePixels.SmallestPowerOfTwoFixed | src/com/teacore/opengl/OGLTexture.java:46-49 | rounding leaves a size unchanged exactly when it already is a power of two of at least 2 |
| TexturePixels.RgbaBytes | src/com/teacore/opengl/OGLTexture.java:63-66 | four bytes per pixel |
| TexturePixels.RgbaOfArgb | src/com/teacore/opengl/OGLTexture.java:63-66 | packing moves alpha from the front to the back and keeps the colours |
| TexturePixels.ArgbOfRgba | src/com/teacore/opengl/OGLTexture.java:63-66 | the four bytes rebuild the pixel: nothing is lost |
| TexturePixels.Packed | src/com/teacore/opengl/OGLTexture.java:58-67 | four bytes per pixel overall |
| TexturePixels.PackedAt | src/com/teacore/opengl/OGLTexture.java:60-67 | byte `4k + c` is channel `c` of pixel `k` |
| TexturePixels.PutRgba | src/com/teacore/opengl/OGLTexture.java:63-66 | four `put` calls append one pixel's bytes |
| TexturePixels.PackPixels | src/com/teacore/opengl/OGLTexture.java:58-67 | the row-by-row loop fills a buffer of `width * height * 4` bytes with the packed pixels in order |
| ByteArrays.ByteArrayBuilder.constructor | src/com/teacore/resource/ByteArrayBuilder.java:24-31 | an empty builder with the given allocation size |
| ByteArrays.ByteArrayBuilder.New | src/com/teacore/resource/ByteArrayBuilder.java:24-31 | a non-positive allocation size is refused; otherwise an empty, valid builder |
| ByteArrays.ByteArrayBuilder.NewDefault | src/com/teacore/resource/ByteArrayBuilder.java:36-38 | an empty builder with allocation size 1024 |
| ByteArrays.ByteArrayBuilder.ResetBuildingArray | src/com/teacore/resource/ByteArrayBuilder.java:88-91 | a new, empty chunk of the allocation size |
| ByteArrays.ByteArrayBuilder.Append | src/com/teacore/resource/ByteArrayBuilder.java:45-58 | the byte is added to the contents and every chunk stays full; a full chunk is first sealed behind the earlier ones |
| ByteArrays.ByteArrayBuilder.Seal | src/com/teacore/resource/ByteArrayBuilder.java:46-55 | the full chunk joins the sealed ones in order, a new chunk is started, and the contents do not change |
| ByteArrays.ByteArrayBuilder.Extended | src/com/teacore/resource/ByteArrayBuilder.java:47-52 | a new array of the sealed chunks, one longer, the old chunk last |
| ByteArrays.ByteArrayBuilder.Length | src/com/teacore/resource/ByteArrayBuilder.java:65-67 | the number of bytes appended so far |
| ByteArrays.ByteArrayBuilder.ToByteArray | src/com/teacore/resource/ByteArrayBuilder.java:74-86 | a new array holding exactly the bytes appended so far, in order |
| ByteArrays.ByteArrayBuilder.PutBuiltArrays | src/com/teacore/resource/ByteArrayBuilder.java:78-80 | the sealed chunks copied one after another from the start of the result |
| ByteArrays.Put | src/com/teacore/resource/ByteArrayBuilder.java:82-83 | a byte-by-byte copy appends the bytes after the given position and keeps what is before it |
| ByteArrays.FlattenLength | src/com/teacore/resource/ByteArrayBuilder.java:65-67 | chunks of one size join to a multiple of it, which is why `length` can multiply |
| ByteArrays.RoundTrip | src/com/teacore/resource/ByteArrayBuilder.java:24-86 | appending any byte sequence and joining gives it back, and two joins in a row give the same bytes; a non-positive size is refused |
| Sequences.IndexOf | src/com/teacore/opengl/OGLAllocatedData.java:36-38 | the first position holding the element |
| Sequences.RemoveFirst | src/com/teacore/opengl/OGLAllocatedData.java:36-38 | `remove(Object)`: an absent element leaves the list alone; a present one shortens it by one |
| Sequences.RemoveFirstSplit | src/com/teacore/opengl/OGLAllocatedData.java:36-38 | exactly the first occurrence goes and the rest keep their order |
| Sequences.RemoveFirstMultiset | src/com/teacore/opengl/OGLAllocatedData.java:36-38 | as a bag, one copy goes and nothing else changes |
| Sequences.RemoveFirstSubset | src/com/teacore/opengl/OGLAllocatedData.java:36-38 | nothing new appears |
| Sequences.RemoveFirstKeeps | src/com/teacore/opengl/OGLAllocatedData.java:36-38 | every other element stays |
| Sequences.RemoveFirstDistinct | src/com/teacore/glfw/GLFWWindow.java:334-343 | in a list without repetitions the element is gone entirely and no repetition appears |

## Left out

- `GLFWUtil.isInitialized` and `isTerminated` read the fields `Glfw.Library.initialized` and `terminated`; no member is needed.
- `GLFWMonitor.getHandle` and `isValid` read the fields `handle` and `valid`. `OGLTexture.getWidth`/`getHeight` and `OGLVertexArray.getVertexData`/`getVertexSize` are field reads in the same way.
- `OGLVertexArray` stores the caller's array by reference. Its float data is modelled as `real`, so floating-point values are not modelled.
- TexturePixels.NextPowerOfTwo: requires an argument of at most 2^30. In Java the doubling wraps to a negative value past that, the loop never ends, and the constructor hangs. Texture creation with rounding carries the same precondition.
- OpenGL.Texture.Create: `width * height * 4` and the `rgbData` size are not bounded to the `int` range. Images too large for it are outside the model.
- ByteArrays.ByteArrayBuilder.Length: `builtArrays.length * allocationSize + buildingArraySize` is computed without 32-bit wrap-around. A builder past 2^31 − 1 bytes is outside the model.
- JavaInt.DoubleToInt: the cursor's `double` is a `real`. Java's `(int)` maps NaN to 0 and the infinities to the ends of the `int` range; a `real` has neither, so those cases are not modelled.
- OpenGL.Entry.IsDeleted: the getter `isDeleted` (src/com/teacore/opengl/OGLAllocatedData.java:70-72) reads the deleted flag of the entry's run-time class; as a field read it carries no contract of its own.
- Glfw.DimensionsAccepted: the size check of src/com/teacore/glfw/GLFWWindow.java:54 as a predicate (2 to 4096 on each side, as coded). What it accepts and refuses is stated in Glfw.Windows.CreateWindowed's contract, so it has no row of its own.
- Bytes are `bv8` rather than signed Java bytes. Only their bit pattern matters to the code.
- The error callback set up by `init` and freed by `terminate`, `glfwTerminate`, buffer swapping, event polling and the window hints are left out. They have no state the core reads back.
- The window system is not modelled:
  - user moves and resizes: Glfw.Window.GetWindowX, Glfw.Window.GetWindowY, Glfw.Window.GetWindowWidth and Glfw.Window.GetWindowHeight return the position and size recorded at creation, where Java asks `glfwGetWindowPos`/`glfwGetWindowSize` on every call, so a move or resize after creation is not seen;
  - monitor hot-plugging;
  - a null video mode.
- GL state is one global object shared by every context. Per-context state is not modelled.
- Threads are left out.
- `glAttachShader`/`glDetachShader` and the shader info logs put into the exception message are left out. A compile or link failure is a status parameter of `Shader.Create`.
- Wrap mode, resize filter and texture slot are their GL numbers. `OGLWrapMode`, `OGLResizeFilter` and `OGLTextureSlot` are not part of this model.
- Drawing the image onto the rescaled `nImage` is not modelled. CreateFromScaled receives the redrawn image as a parameter.
- OpenGL.VertexArrayObject.Create: requires that every non-null vertex array passed in was accepted by the `OGLVertexArray` constructor, which is the only way to obtain one.
- OpenGL.Registry.DeleteAll: its exact outcome and deleted set are stated only for lists without repeated objects. A list can only repeat an object if someone registers it twice, which none of the constructors do.
- OpenGL.Registry.Unregister: `unregister(null)` cannot occur, because every caller passes `this`.

## Findings

| source | as written | input that shows it | evidently intended | confidence | as-written member | corrected member |
|---|---|---|---|---|---|---|
| src/com/teacore/opengl/OGLAllocatedData.java:47-50 | a subclass `delete()` unregisters itself, and the loop then calls `remove(0)`, which takes off the next entry undeleted or throws on an empty list | two live vertex array objects: the second is never deleted; one live one: `IndexOutOfBoundsException` | every registered object that is not yet deleted is deleted, and the list ends empty | not executed | OpenGL.Registry.DeleteAll, OpenGL.WalkDropsFollower, OpenGL.WalkThrowsOnLast | OpenGL.Registry.DeleteAllCorrected |
| src/com/teacore/opengl/OGLVertexArrayObject.java:38-39 | `getMaxValue(indices) > getMinVertexArraySize(vertexArrays)` rejects only indices beyond the vertex count | 9 floats with vertex size 3 (three vertices) and indices 0, 1, 3 are accepted | reject an index equal to the vertex count (`>=`) | not executed | VaoValidation.IndexCheckAsWritten, VaoValidation.IndexEqualToCountAccepted | VaoValidation.IndexCheckCorrectedMeaning |
| src/com/teacore/opengl/OGLTexture.java:51-57 | the pixels are read with `image.getRGB(0, 0, width, height, ...)` from the original image at the rounded size, and the redrawn `nImage` is never used | a 3x4 image with power-of-two rounding: `getRGB` reads outside it | read the pixels of the redrawn image | not executed | OpenGL.Texture.Create | OpenGL.Texture.CreateFromScaled |
| src/com/teacore/opengl/OGLTexture.java:37-81 | the constructor never calls `OGLAllocatedData.register(this)`, although the class comment (lines 14-16) says the texture registers itself and `delete` unregisters it | any texture: `deleteAll` does not see it, so it stays live after teardown | register the new texture, as the shader and vertex array object constructors do | not executed | OpenGL.Texture.Create, OpenGL.UnregisteredTextureScenario | OpenGL.Texture.CreateFromScaled, OpenGL.RegisteredTextureScenario |
