// Shared vocabulary: Qt's integer geometry types (QPoint, QSize, QRect).

module Geometry {
  /** QPoint: a screen position; a default QPoint is (0, 0). */
  datatype Point = Point(x: int, y: int)

  /** QSize. */
  datatype Size = Size(width: int, height: int)

  /** QRect given by its top-left corner and its size. */
  datatype Rect = Rect(x: int, y: int, width: int, height: int)
}
