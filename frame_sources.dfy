/**
 * The frame records of the file importers: LinkedFileImporter's
 * FrameSourceInformation, which says where one animation frame is stored.
 */
module FrameSources {
  /** The label "<file name> (Frame <n>)". */
  datatype FrameLabel = FrameLabel(fileName: string, frameNumber: int)

  /** The source file, the byte offset and 1-based line number of the frame, the file's time stamp, the label. */
  datatype FrameSourceInformation = FrameSourceInformation(
    sourceFile: string, byteOffset: int, lineNumber: int,
    lastModificationTime: int, frameLabel: FrameLabel)
}
