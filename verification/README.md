# VIA2COCO in Dafny

A model of the two pieces of logic in VIA2COCO, a converter from VGG Image
Annotator (VIA) exports to the COCO object-detection format:

- `get_area.py`: the polygon-area routine `get_area_of_polygon`. It sums
  signed triangle areas, with the sign taken from a cross product, and
  returns the absolute value. The module also holds the Heron triangle
  area, `x_y_to_points` and the `main` self-check. This is module
  `GetArea` in `get_area.dfy`.
- `convert.py`: the conversion of VIA CSV rows into COCO categories, image
  records and rectangle annotations. This is module `Convert` in
  `convert.dfy`.

The area routine is modelled as written. Its loop re-reads `points[1]` and
`points[2]` on every pass, so for n >= 3 points it returns
(n - 2) * area(p0, p1, p2). Module `Shoelace` (`shoelace.dfy`) holds two
more definitions:

- the shoelace formula, as an independent reference;
- `FanArea`, the same loop with the vertex indices advancing, which is
  proved to equal the shoelace area on every polygon.

A concrete quadrilateral shows that the routine as written does not compute
the shoelace area (see Findings).

Modelling choices:

- **Points.** Point coordinates and areas are exact reals.
- **Triangle area.** `get_area_of_triangle` is modelled as half the absolute
  cross product. `GetArea.HeronAgrees` proves that the square of this value
  is Heron's product s(s-a)(s-b)(s-c) for any side lengths a, b, c whose
  squares are the squared distances. So in exact arithmetic it is the value
  that `math.sqrt` returns.
- **Rows.** Conversion works on rows whose JSON columns are already
  decoded. `cv2.imread` is a parameter `imread` that returns the image's
  `shape[:2]`, or None when the image cannot be read.
- **Exceptions.** The exceptions `convert` can raise are results:
  - `NoRows` for `rows[0]` on an empty CSV;
  - `UnknownLabel` for the `assert category in category_names`;
  - `MissingBoxKey` for a labelled region that is not a rectangle.
- **Behaviour kept as the code has it.** Three properties come straight
  from the code:
  - The category lookup compares every category dict with its own name,
    because the loop variable shadows the label. So every annotation gets
    category id 0, which no category has.
  - `create_image_info` receives `img.shape[:2]`, which is (rows, cols).
    So the record's width is the image height and its height is the image
    width.
  - The default `date_captured` is evaluated once, when the module is
    loaded. So every image of a run carries the same date.
- **Segmentation.** It is the list of four corner pairs that `convert.py`
  builds. It is not a flattened coordinate list, and only rectangle regions
  are converted; this model follows the code in both respects.

## Model

| member | source | states |
|---|---|---|
| GetArea.GetAreaOfPolygon | get_area.py:13-35 | fails exactly when there are fewer than three points; otherwise the area is non-negative |
| GetArea.CrossZ | get_area.py:23-26 | no contract of its own; Sign, TriangleArea and LegacyCollinearIsZero state what the cross product decides |
| GetArea.Sign | get_area.py:27-31 | the sign is 1, -1 or 0 exactly when the cross product is positive, negative or zero |
| GetArea.SignedTriangleArea | get_area.py:23-33 | one pass adds the triangle area times the sign, which is half the cross product of the edge vectors p1->p2 and p2->p3 |
| GetArea.LegacyStep | get_area.py:20-33 | one pass adds half the cross product of points 0, 1 and 2, whatever the loop index is |
| GetArea.LegacyLoop | get_area.py:18-34 | no contract of its own; LegacyLoopRepeats states what the loop adds |
| GetArea.LegacyLoopRepeats | get_area.py:18-34 | entered at index i, the loop runs n-1-i more times, each time adding the signed area of points 0, 1, 2 |
| GetArea.LegacyClosedForm | get_area.py:13-35 | for n >= 3 the result is abs((n-2) * sign * area(p0,p1,p2)), which equals (n-2) * area(p0,p1,p2) |
| GetArea.LegacyOnlyFirstThree | get_area.py:18-21 | two polygons of equal length that share their first three vertices get the same result |
| GetArea.LegacyIgnoresLaterVertex | get_area.py:19-21 | replacing any vertex at index 3 or later leaves the result unchanged |
| GetArea.LegacyCollinearIsZero | get_area.py:26-33 | collinear first three vertices give area 0 whatever the other vertices are |
| GetArea.LegacyTriangle | get_area.py:13-35 | on three points the result is the triangle's area |
| GetArea.SqDist | get_area.py:48-51 | the squared line length is non-negative |
| GetArea.TriangleArea | get_area.py:38-45 | the triangle area is non-negative, and zero exactly when the points are collinear |
| GetArea.HeronProduct | get_area.py:42-43 | no contract of its own; HeronExpansion and HeronAgrees state its value |
| GetArea.HeronExpansion | get_area.py:42-43 | 16 times Heron's product is 4b^2c^2 - (b^2 + c^2 - a^2)^2 |
| GetArea.SquaredSidesIdentity | get_area.py:39-41 | 4BC - (B + C - A)^2 over the squared side lengths is four times the squared cross product |
| GetArea.HeronAgrees | get_area.py:38-51 | Heron's product over any side lengths whose squares are the squared distances equals the square of TriangleArea |
| GetArea.XYToPoints | get_area.py:54-58 | gives len(x) points with point i = (x[i], y[i]); y must be at least as long as x |
| GetArea.XYToPointsUnzips | get_area.py:54-58 | unzipping the points gives back x and the first len(x) entries of y |
| GetArea.XYToPointsZips | get_area.py:54-58 | zipping the coordinates of any point list gives that list back |
| GetArea.Ceil | get_area.py:69 | the ceiling c of r satisfies r <= c < r + 1 |
| GetArea.MainSquareCheck | get_area.py:61-69 | the square x=[1,0,0,1], y=[0,0,1,1] gets area 1 and its ceiling is 1 |
| Shoelace.ShoelaceArea | get_area.py:13-35 | the reference shoelace formula, half the absolute closed determinant sum, is non-negative; FanMatchesShoelace ties the corrected routine to it |
| Shoelace.FanArea | get_area.py:13-35 | the corrected routine fails exactly on fewer than three points; otherwise its area is non-negative |
| Shoelace.FanLoopSum | get_area.py:19-34 | with advancing indices, the loop from index i adds half the determinant sum of points[i..] closed through points[0] |
| Shoelace.FanMatchesShoelace | get_area.py:19-35 | the corrected routine returns the shoelace area of every polygon of three or more points |
| Shoelace.LegacyMatchesShoelaceOnTriangles | get_area.py:13-35 | on a triangle the routine as written returns the shoelace area |
| Shoelace.LegacyOnQuad | get_area.py:18-21 | on (1,1),(2,1),(2,2),(1,k) the routine returns 1 for every k |
| Shoelace.ShoelaceOnQuad | get_area.py:18-21 | the shoelace area of (1,1),(2,1),(2,2),(1,k) is abs(k)/2 |
| Shoelace.FanOnQuad | get_area.py:18-21 | the corrected routine returns the shoelace value k/2 on that quadrilateral when k >= 0 |
| Shoelace.LegacyDiffersFromShoelace | get_area.py:19-21 | for k >= 0, k != 2 the routine returns 1, while the shoelace value is k/2; for k > 1 the quadrilateral is simple and k/2 is its area |
| Convert.CreateImageInfo | convert.py:10-22 | every argument lands in its like-named field; width is imageSize[0] and height is imageSize[1] |
| Convert.CreateImageInfoRoundTrip | convert.py:10-22 | rebuilding an image record from its own fields gives the same record |
| Convert.CreateAnnotationInfo | convert.py:25-36 | every argument lands in its like-named field |
| Convert.CreateAnnotationInfoRoundTrip | convert.py:25-36 | rebuilding an annotation record from its own fields gives the same record |
| Convert.Corners | convert.py:121 | the segmentation has four points |
| Convert.CornersSpanBox | convert.py:118-121 | for non-negative width and height every corner lies in the box, and the top-left and bottom-right corners are present |
| Convert.CornersShoelace | convert.py:121 | twice the signed shoelace area of the four corners is 2*w*h |
| Convert.CategoryNames | convert.py:59-64 | the collected names have no duplicates and are exactly the `type` values of the rows |
| Convert.MakeCategories | convert.py:65-66 | category i has id i+1, the i-th name and an empty supercategory |
| Convert.CategoriesIndexNames | convert.py:65-66 | the ids lie in 1..k and are pairwise distinct, and each name belongs to exactly one category |
| Convert.LookupAsWritten | convert.py:108-111 | no contract of its own; LookupAsWrittenKeeps states what the loop leaves |
| Convert.CategoryIdAsWritten | convert.py:108-111 | no contract of its own; CategoryIdAlwaysZero states its value |
| Convert.LookupAsWrittenKeeps | convert.py:108-111 | the lookup loop never changes cate_id, since a dict never equals a string |
| Convert.CategoryIdAlwaysZero | convert.py:108-111 | the looked-up id is 0 for every label, and no category has id 0 |
| Convert.ImageForSwapsSize | convert.py:97 | the image record's width is the image's row count and its height the column count; licence 1, empty URLs, load-time date |
| Convert.ImageFor | convert.py:97 | no contract of its own; ImageForSwapsSize states its fields |
| Convert.AnnotationFor | convert.py:114-122 | the box is (x, y, w, h) as given, the area is w*h, the segmentation is the box's corners, iscrowd is 0 and the category id is 0 |
| Convert.AnnotationAreaIsSegmentationArea | convert.py:120-121 | the area field equals the signed shoelace area of the segmentation polygon |
| Convert.Stuck | convert.py:102-118 | no contract of its own; Step and ParseFails state that a row stops the loop exactly when it is stuck |
| Convert.StuckError | convert.py:106-118 | a stuck row fails at its own index, with the label error exactly when its type is not a category name, otherwise because it is not a rectangle |
| Convert.Parse | convert.py:90-124 | on success the annotation counter equals the number of annotations, and there are no more annotations than images nor images than rows; the loop never fails with NoRows |
| Convert.Step | convert.py:91-124 | one row fails exactly when it is stuck; an unreadable row adds nothing, an unlabelled one adds only its image, a labelled one adds its image and the next-numbered annotation |
| Convert.ParseFails | convert.py:100-118 | the loop fails exactly when some row is stuck, and with the error of the first such row |
| Convert.ParseImages | convert.py:91-98 | the images are exactly the readable rows, in row order, with the row index as id |
| Convert.ImagesExtend | convert.py:91-98 | one more row extends the image list of a prefix to that of the longer prefix |
| Convert.ParseAnnotations | convert.py:90-124 | the annotations are exactly the labelled readable rows, in row order, numbered 0..m-1; the counter ends at m |
| Convert.AnnotationsExtend | convert.py:100-124 | one more row extends the annotation list of a prefix to that of the longer prefix |
| Convert.AnnotationsHaveImages | convert.py:97-124 | every annotation's image id is the id of an emitted image |
| Convert.ConvertRows | convert.py:50-55 | the conversion fails with NoRows exactly when there are no rows |
| Convert.ConvertFails | convert.py:100-118 | the label assertion never fires; a conversion fails exactly when a labelled readable row is not a rectangle, and at the first such row |
| Convert.ConvertSucceeds | convert.py:57-124 | on success: ids 1..k over the distinct labels, images and annotations as above, every category id 0 |
| Convert.ConvertSharesDate | convert.py:10-11 | every image of one conversion carries the same date_captured |

## Left out

- CSV reading and `json.loads` of the attribute columns: rows arrive decoded. A malformed JSON cell, and a `type` value that is not a string, are not modelled.
- `cv2.imread` and image decoding: replaced by the parameter `imread`.
- `datetime.utcnow()`: the value the default argument took when the module was loaded is the parameter `loadTime`.
- `print` calls: they have no effect on the result. The failure of `rows[0]` on an empty file is kept, as `NoRows`.
- The constant `info`/`licenses` template, with its run-time `date_created`, and the `__main__` file write: these are constants and I/O.
- Floating point: coordinates and areas are exact reals. `math.sqrt` and `math.pow` rounding, and a slightly negative radicand, are not modelled.
- GetArea.TriangleArea: it is the exact value the Heron formula denotes, and HeronAgrees relates it to Heron's product. The float result of `math.sqrt` is not modelled.
- Python set iteration order for `category_names`: the model lists names in order of first occurrence, and its contracts claim only ids 1..k, distinct names and coverage of the labels.
- GetArea.XYToPoints: requires y to be at least as long as x. A shorter y makes `y[index]` raise IndexError, and that error path is not modelled.
- Non-numeric or non-integer rectangle fields, for which `w * h` or the tuple arithmetic would behave differently.

## Findings

| source | as written | input that shows it | evidently intended | confidence | as-written member | corrected member |
|---|---|---|---|---|---|---|
| get_area.py:19-21 | the loop sets `p2 = points[1]` and `p3 = points[2]` on every pass, so it adds the triangle (p0, p1, p2) n-2 times | the polygon (1,1), (2,1), (2,2), (1,6) gets area 1; its shoelace area is 3 | `p2 = points[i]`, `p3 = points[i + 1]`, a triangle fan over the whole polygon, whose sum is the shoelace area | high, not executed | Shoelace.LegacyDiffersFromShoelace | Shoelace.FanMatchesShoelace |
