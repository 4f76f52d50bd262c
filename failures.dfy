/** The exceptions the library throws, as values.  Every operation that can
    throw returns an `Outcome` (no value) or a `Result` (a value). */
module Failures {

  /** Which step of shader construction failed. */
  datatype ShaderStage = VertexCompile | FragmentCompile | ProgramLink

  datatype Error =
    // IllegalArgumentException: an argument (or the texture slot) is null
    | NullArgument
    // IllegalArgumentException: window width or height outside 2..4096
    | IllegalDimensions
    // IllegalArgumentException: vertex size below one
    | InvalidVertexSize
    // IllegalArgumentException: vertex data length not a multiple of the vertex size
    | VertexDataMismatch
    // IllegalArgumentException: a negative index
    | NegativeIndex
    // IllegalArgumentException: an index beyond the vertex arrays
    | IndexOutOfRange
    // IllegalArgumentException: byte builder allocation size not positive
    | NonPositiveAllocation
    // IllegalStateException: the GPU object was already deleted
    | AlreadyDeleted
    // IllegalStateException: the owning OpenGL context is not current
    | WrongContext
    // OGLShaderCompileException
    | CompileFailed(stage: ShaderStage)
    // IllegalStateException: the window was already destroyed
    | WindowDestroyed
    // IllegalStateException: GLFW not initialized or already terminated
    | NotReady
    // IllegalStateException from GLFWUtil.init / terminate
    | AlreadyTerminated
    | AlreadyInitialized
    | NotInitialized
    | InitFailed
    // IllegalStateException / RuntimeException: glfwCreateWindow returned 0
    | CreationFailed
    // NullPointerException: no primary monitor to open a full-screen window on
    | NullPointer
    // IndexOutOfBoundsException from ArrayList.remove(0) on an empty list
    | IndexOutOfBounds
    // ArrayIndexOutOfBoundsException from BufferedImage.getRGB outside the image
    | CoordinateOutOfBounds

  datatype Outcome = Pass | Fail(error: Error)

  datatype Result<T> = Ok(value: T) | Err(error: Error)

  /** A Java reference argument that may be null. */
  datatype Option<T> = None | Some(value: T)
}
