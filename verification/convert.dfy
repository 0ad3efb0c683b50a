/** Model of convert.py: turning the rows of a VIA CSV export into a COCO
    dataset of categories, images and rectangle annotations.

    The CSV and JSON decoding are taken as done: a row arrives with its
    `region_attributes` reduced to the optional `type` value and its
    `region_shape_attributes` reduced to a rectangle or "some other shape".
    Loading an image (`cv2.imread`) is the parameter `imread`, which yields
    the image's `shape[:2]` or None when the file cannot be read. */
module Convert {

  datatype Option<T> = None | Some(value: T)

  /** A rectangle region carries x, y, width and height; any other region
      shape (polygon, circle, ...) has none of these keys. */
  datatype Shape = Rect(x: int, y: int, width: int, height: int) | OtherShape

  /** One CSV row with its JSON columns decoded: the file name, the `type`
      region attribute when there is one, and the region shape. */
  datatype Row = Row(filename: string, regionType: Option<string>, shape: Shape)

  /** `img.shape[:2]` of a loaded image: (number of rows, number of columns). */
  datatype ImageShape = ImageShape(rows: int, cols: int)

  datatype Category = Category(id: int, name: string, supercategory: string)

  datatype ImageInfo = ImageInfo(id: int, fileName: string, width: int, height: int,
                                 dateCaptured: string, license: int, cocoUrl: string, flickrUrl: string)

  /** `[x, y, width, height]` */
  datatype BBox = BBox(x: int, y: int, width: int, height: int)

  datatype Annotation = Annotation(id: int, imageId: int, categoryId: int, isCrowd: int,
                                   area: int, bbox: BBox, segmentation: seq<(int, int)>)

  /** Why a conversion stops with an exception:
      NoRows        `rows[0]` of an empty CSV (IndexError),
      UnknownLabel  the `assert category in category_names` at the given row,
      MissingBoxKey a labelled region without `x`/`y`/`width`/`height` at the
                    given row (KeyError). */
  datatype ConvertError = NoRows | UnknownLabel(row: int) | MissingBoxKey(row: int)

  datatype Outcome<T> = Success(value: T) | Failure(error: ConvertError)

  /** Everything a row is converted against: the image loader, the collected
      category names and categories, and the value the default argument
      `date_captured` of `create_image_info` took when the module was loaded. */
  datatype Env = Env(imread: string -> Option<ImageShape>, names: seq<string>,
                     categories: seq<Category>, loadTime: string)

  datatype State = State(images: seq<ImageInfo>, annotations: seq<Annotation>, nextAnnotationId: int)

  datatype Coco = Coco(categories: seq<Category>, images: seq<ImageInfo>, annotations: seq<Annotation>)

  // ---------------------------------------------------------------------
  // Record builders
  // ---------------------------------------------------------------------

  /** `create_image_info`: the first component of `imageSize` becomes the
      width and the second the height. */
  function CreateImageInfo(imageId: int, fileName: string, imageSize: (int, int), dateCaptured: string,
                           licenseId: int, cocoUrl: string, flickrUrl: string): (info: ImageInfo)
    ensures info.id == imageId && info.fileName == fileName
    ensures info.width == imageSize.0 && info.height == imageSize.1
    ensures info.dateCaptured == dateCaptured && info.license == licenseId
    ensures info.cocoUrl == cocoUrl && info.flickrUrl == flickrUrl
  {
    ImageInfo(imageId, fileName, imageSize.0, imageSize.1, dateCaptured, licenseId, cocoUrl, flickrUrl)
  }

  /** Reading the fields of an image record back and rebuilding it gives the
      same record: no argument is dropped or mixed up with another. */
  lemma CreateImageInfoRoundTrip(info: ImageInfo)
    ensures CreateImageInfo(info.id, info.fileName, (info.width, info.height), info.dateCaptured,
                            info.license, info.cocoUrl, info.flickrUrl) == info
  {
  }

  /** `create_annotation_info`: every argument lands in its own field. */
  function CreateAnnotationInfo(annotationId: int, imageId: int, categoryId: int, isCrowd: int,
                                area: int, box: BBox, segmentation: seq<(int, int)>): (ann: Annotation)
    ensures ann.id == annotationId && ann.imageId == imageId
    ensures ann.categoryId == categoryId && ann.isCrowd == isCrowd
    ensures ann.area == area && ann.bbox == box && ann.segmentation == segmentation
  {
    Annotation(annotationId, imageId, categoryId, isCrowd, area, box, segmentation)
  }

  lemma CreateAnnotationInfoRoundTrip(ann: Annotation)
    ensures CreateAnnotationInfo(ann.id, ann.imageId, ann.categoryId, ann.isCrowd, ann.area,
                                 ann.bbox, ann.segmentation) == ann
  {
  }

  /** The segmentation of a box: its corners, clockwise in image coordinates
      from the top-left one. */
  function Corners(b: BBox): (c: seq<(int, int)>)
    ensures |c| == 4
  {
    [(b.x, b.y), (b.x + b.width, b.y), (b.x + b.width, b.y + b.height), (b.x, b.y + b.height)]
  }

  /** For a box of non-negative size, every corner lies inside the box, and
      the top-left and bottom-right corners are among them: the segmentation
      spans exactly the bounding box. */
  lemma CornersSpanBox(b: BBox)
    requires b.width >= 0 && b.height >= 0
    ensures forall k :: 0 <= k < 4 ==>
              b.x <= Corners(b)[k].0 <= b.x + b.width && b.y <= Corners(b)[k].1 <= b.y + b.height
    ensures (b.x, b.y) in Corners(b) && (b.x + b.width, b.y + b.height) in Corners(b)
  {
  }

  /** Determinant of the position vectors p and q. */
  function Cross2(p: (int, int), q: (int, int)): int
  {
    p.0 * q.1 - q.0 * p.1
  }

  /** Sum of Cross2 over consecutive pairs of an open chain of points. */
  function CrossChain(s: seq<(int, int)>): int
    decreases |s|
  {
    if |s| < 2 then 0 else Cross2(s[0], s[1]) + CrossChain(s[1..])
  }

  /** Twice the signed area of a closed polygon (the shoelace sum). */
  function TwiceSignedArea(s: seq<(int, int)>): int
  {
    if |s| == 0 then 0 else CrossChain(s) + Cross2(s[|s| - 1], s[0])
  }

  /** The shoelace sum of a box's corners is twice width * height. */
  lemma CornersShoelace(b: BBox)
    ensures TwiceSignedArea(Corners(b)) == 2 * (b.width * b.height)
  {
    var c := Corners(b);
    assert c[1..][1..][1..] == [c[3]];
    assert CrossChain(c[1..][1..]) == Cross2(c[2], c[3]);
    assert CrossChain(c) == Cross2(c[0], c[1]) + Cross2(c[1], c[2]) + Cross2(c[2], c[3]);
  }

  // ---------------------------------------------------------------------
  // Categories
  // ---------------------------------------------------------------------

  predicate NoDuplicates(s: seq<string>)
  {
    forall i, j :: 0 <= i < j < |s| ==> s[i] != s[j]
  }

  /** Some row is labelled `name`. */
  predicate IsRegionType(rows: seq<Row>, name: string)
  {
    exists i :: 0 <= i < |rows| && rows[i].regionType == Some(name)
  }

  /** The set `category_names`, listed in order of first occurrence. */
  function CategoryNames(rows: seq<Row>): (names: seq<string>)
    ensures NoDuplicates(names)
    ensures forall name :: name in names <==> IsRegionType(rows, name)
    decreases |rows|
  {
    if |rows| == 0 then []
    else
      var prev := CategoryNames(rows[..|rows| - 1]);
      var last := rows[|rows| - 1];
      assert forall i :: 0 <= i < |rows| - 1 ==> rows[..|rows| - 1][i] == rows[i];
      assert forall name :: IsRegionType(rows, name) <==> IsRegionType(rows[..|rows| - 1], name) || last.regionType == Some(name);
      match last.regionType
      case None => prev
      case Some(t) => if t in prev then prev else prev + [t]
  }

  /** `coco_categories`: the i-th name gets id i + 1 and an empty supercategory. */
  function MakeCategories(names: seq<string>): (cats: seq<Category>)
    ensures |cats| == |names|
    ensures forall i :: 0 <= i < |names| ==> cats[i] == Category(i + 1, names[i], "")
  {
    seq(|names|, i requires 0 <= i < |names| => Category(i + 1, names[i], ""))
  }

  /** The ids are 1 .. k, distinct, and each name of the list has exactly one
      category: the one at its own position. */
  lemma CategoriesIndexNames(names: seq<string>)
    requires NoDuplicates(names)
    ensures forall i :: 0 <= i < |names| ==> 1 <= MakeCategories(names)[i].id <= |names|
    ensures forall i, j :: 0 <= i < j < |names| ==> MakeCategories(names)[i].id != MakeCategories(names)[j].id
    ensures forall i, j :: 0 <= i < |names| && 0 <= j < |names| && MakeCategories(names)[j].name == names[i] ==> j == i
  {
  }

  /** A value the category loop compares: a regionType string or a category dict. */
  datatype PyValue = PyStr(s: string) | PyDict(c: Category)

  /** The category loop from `cate_id` on: its loop variable `category`
      rebinds the name that held the row's regionType, so each pass compares a
      category dict with that same dict's own name. */
  function LookupAsWritten(cats: seq<Category>, cateId: int): int
    decreases |cats|
  {
    if |cats| == 0 then cateId
    else
      var category := PyDict(cats[0]);
      LookupAsWritten(cats[1..], if category == PyStr(cats[0].name) then cats[0].id else cateId)
  }

  /** `cate_id` for a row labelled `regionType`, as the code computes it. The
      regionType is never read: the loop variable shadows it. */
  function CategoryIdAsWritten(regionType: string, cats: seq<Category>): int
  {
    LookupAsWritten(cats, 0)
  }

  /** A dict never equals a string, so the loop leaves `cate_id` alone. */
  lemma {:induction false} LookupAsWrittenKeeps(cats: seq<Category>, cateId: int)
    ensures LookupAsWritten(cats, cateId) == cateId
    decreases |cats|
  {
    if |cats| > 0 {
      LookupAsWrittenKeeps(cats[1..], cateId);
    }
  }

  /** Every annotation gets category id 0, which no category has: even a
      regionType whose category is at position i, with id i + 1, is not found. */
  lemma CategoryIdAlwaysZero(regionType: string, names: seq<string>)
    ensures CategoryIdAsWritten(regionType, MakeCategories(names)) == 0
    ensures forall i :: 0 <= i < |names| ==> MakeCategories(names)[i].id != 0
  {
    LookupAsWrittenKeeps(MakeCategories(names), 0);
  }

  // ---------------------------------------------------------------------
  // One row
  // ---------------------------------------------------------------------

  predicate Readable(env: Env, row: Row)
  {
    env.imread(row.filename).Some?
  }

  /** The rows that yield an annotation, or fail trying. */
  predicate Annotated(env: Env, row: Row)
  {
    Readable(env, row) && row.regionType.Some?
  }

  /** The image record of a readable row. `img.shape[:2]` is (rows, cols),
      so the record's width is the image's row count and its height is the
      column count. */
  function ImageFor(env: Env, imageId: int, row: Row): (info: ImageInfo)
    requires Readable(env, row)
  {
    var sh := env.imread(row.filename).value;
    CreateImageInfo(imageId, row.filename, (sh.rows, sh.cols), env.loadTime, 1, "", "")
  }

  /** The image record swaps the two dimensions of the loaded image, and
      carries licence 1, empty URLs and the load-time date. */
  lemma ImageForSwapsSize(env: Env, imageId: int, row: Row)
    requires Readable(env, row)
    ensures ImageFor(env, imageId, row).width == env.imread(row.filename).value.rows
    ensures ImageFor(env, imageId, row).height == env.imread(row.filename).value.cols
    ensures ImageFor(env, imageId, row).id == imageId && ImageFor(env, imageId, row).fileName == row.filename
    ensures ImageFor(env, imageId, row).dateCaptured == env.loadTime
    ensures ImageFor(env, imageId, row).license == 1
    ensures ImageFor(env, imageId, row).cocoUrl == "" && ImageFor(env, imageId, row).flickrUrl == ""
  {
  }

  /** The annotation record of a rectangle region: the box as given, area
      width * height, the four corners as segmentation, `iscrowd` 0, and the
      category id the lookup loop leaves, which is 0. */
  function AnnotationFor(env: Env, annotationId: int, imageId: int, regionType: string, r: Shape): (ann: Annotation)
    requires r.Rect?
    ensures ann.id == annotationId && ann.imageId == imageId
    ensures ann.bbox == BBox(r.x, r.y, r.width, r.height)
    ensures ann.area == r.width * r.height
    ensures ann.segmentation == Corners(ann.bbox)
    ensures ann.isCrowd == 0
    ensures ann.categoryId == 0
  {
    var box := BBox(r.x, r.y, r.width, r.height);
    LookupAsWrittenKeeps(env.categories, 0);
    CreateAnnotationInfo(annotationId, imageId, CategoryIdAsWritten(regionType, env.categories), 0,
                         r.width * r.height, box, Corners(box))
  }

  /** The `area` of an annotation is the area its own segmentation encloses:
      twice the area is the segmentation's shoelace sum. */
  lemma AnnotationAreaIsSegmentationArea(env: Env, annotationId: int, imageId: int, regionType: string, r: Shape)
    requires r.Rect?
    ensures TwiceSignedArea(AnnotationFor(env, annotationId, imageId, regionType, r).segmentation)
            == 2 * AnnotationFor(env, annotationId, imageId, regionType, r).area
  {
    CornersShoelace(BBox(r.x, r.y, r.width, r.height));
  }

  /** A row that stops the conversion, and with which error. */
  predicate Stuck(env: Env, row: Row)
  {
    Annotated(env, row) && (row.regionType.value !in env.names || row.shape.OtherShape?)
  }

  function StuckError(env: Env, imageId: int, row: Row): (e: ConvertError)
    requires Stuck(env, row)
    ensures e.UnknownLabel? || e.MissingBoxKey?
    ensures e.UnknownLabel? <==> row.regionType.value !in env.names
    ensures e.MissingBoxKey? ==> row.shape.OtherShape?
    ensures e.row == imageId
  {
    if row.regionType.value !in env.names then UnknownLabel(imageId) else MissingBoxKey(imageId)
  }

  /** One pass of the parsing loop for the row at index `imageId`. */
  function Step(env: Env, st: State, imageId: int, row: Row): (r: Outcome<State>)
    ensures r.Failure? <==> Stuck(env, row)
    ensures r.Failure? ==> r.error == StuckError(env, imageId, row)
    ensures r.Success? ==> r.value.images == st.images + (if Readable(env, row) then [ImageFor(env, imageId, row)] else [])
    ensures r.Success? && !Annotated(env, row) ==> r.value.annotations == st.annotations
    ensures r.Success? && !Annotated(env, row) ==> r.value.nextAnnotationId == st.nextAnnotationId
    ensures r.Success? && Annotated(env, row) ==>
              r.value.annotations
              == st.annotations + [AnnotationFor(env, st.nextAnnotationId, imageId, row.regionType.value, row.shape)]
    ensures r.Success? && Annotated(env, row) ==> r.value.nextAnnotationId == st.nextAnnotationId + 1
  {
    match env.imread(row.filename)
    case None => Success(st)
    case Some(_) =>
      var withImage := st.(images := st.images + [ImageFor(env, imageId, row)]);
      match row.regionType
      case None => Success(withImage)
      case Some(category) =>
        if category !in env.names then Failure(UnknownLabel(imageId))
        else match row.shape
          case OtherShape => Failure(MissingBoxKey(imageId))
          case Rect(_, _, _, _) =>
            var ann := AnnotationFor(env, st.nextAnnotationId, imageId, category, row.shape);
            Success(withImage.(annotations := st.annotations + [ann],
                               nextAnnotationId := st.nextAnnotationId + 1))
  }

  // ---------------------------------------------------------------------
  // The parsing loop
  // ---------------------------------------------------------------------

  /** The loop `for image_id, row in enumerate(rows)` run over all of `rows`. */
  function Parse(env: Env, rows: seq<Row>): (r: Outcome<State>)
    ensures r.Success? ==> r.value.nextAnnotationId == |r.value.annotations|
    ensures r.Success? ==> |r.value.annotations| <= |r.value.images| <= |rows|
    ensures r.Failure? ==> !r.error.NoRows?
    decreases |rows|
  {
    if |rows| == 0 then Success(State([], [], 0))
    else match Parse(env, rows[..|rows| - 1])
      case Failure(e) => Failure(e)
      case Success(st) => Step(env, st, |rows| - 1, rows[|rows| - 1])
  }

  /** Each image record is the record of a readable row, with the row's
      index as its id. */
  predicate ImagesFromRows(env: Env, rows: seq<Row>, images: seq<ImageInfo>)
  {
    forall j :: 0 <= j < |images| ==>
      0 <= images[j].id < |rows| && Readable(env, rows[images[j].id])
      && images[j] == ImageFor(env, images[j].id, rows[images[j].id])
  }

  predicate ImagesInOrder(images: seq<ImageInfo>)
  {
    forall a, b :: 0 <= a < b < |images| ==> images[a].id < images[b].id
  }

  /** Some image record has id `id`. */
  predicate HasImage(images: seq<ImageInfo>, id: int)
  {
    exists j :: 0 <= j < |images| && images[j].id == id
  }

  /** Every readable row has its image. */
  predicate ImagesCover(env: Env, rows: seq<Row>, images: seq<ImageInfo>)
  {
    forall i :: 0 <= i < |rows| && Readable(env, rows[i]) ==> HasImage(images, i)
  }

  /** The images are exactly the readable rows, in row order, each with the
      row's index as its id (skipped rows still use up an index). */
  predicate ImagesMatch(env: Env, rows: seq<Row>, images: seq<ImageInfo>)
  {
    ImagesFromRows(env, rows, images) && ImagesInOrder(images) && ImagesCover(env, rows, images)
  }

  /** Each annotation is numbered by its position and built from the
      rectangle of a labelled readable row, whose index is its image id. */
  predicate AnnotationsFromRows(env: Env, rows: seq<Row>, anns: seq<Annotation>)
  {
    forall j :: 0 <= j < |anns| ==>
      anns[j].id == j && 0 <= anns[j].imageId < |rows| && Annotated(env, rows[anns[j].imageId])
      && rows[anns[j].imageId].shape.Rect?
      && anns[j] == AnnotationFor(env, j, anns[j].imageId, rows[anns[j].imageId].regionType.value,
                                  rows[anns[j].imageId].shape)
  }

  predicate AnnotationsInOrder(anns: seq<Annotation>)
  {
    forall a, b :: 0 <= a < b < |anns| ==> anns[a].imageId < anns[b].imageId
  }

  /** Every labelled readable row has its annotation. */
  predicate AnnotationsCover(env: Env, rows: seq<Row>, anns: seq<Annotation>)
  {
    forall i :: 0 <= i < |rows| && Annotated(env, rows[i]) ==>
      exists j :: 0 <= j < |anns| && anns[j].imageId == i
  }

  /** The annotations are exactly the labelled readable rows, in row order,
      numbered 0, 1, 2, ..., each built from its row's rectangle. */
  predicate AnnotationsMatch(env: Env, rows: seq<Row>, anns: seq<Annotation>)
  {
    AnnotationsFromRows(env, rows, anns) && AnnotationsInOrder(anns) && AnnotationsCover(env, rows, anns)
  }

  /** The first row that stops the loop is `i`. */
  predicate FirstStuck(env: Env, rows: seq<Row>, i: int)
  {
    0 <= i < |rows| && Stuck(env, rows[i]) && forall k :: 0 <= k < i ==> !Stuck(env, rows[k])
  }

  lemma PrefixIndex(rows: seq<Row>, i: int)
    requires 0 <= i < |rows| - 1
    ensures rows[..|rows| - 1][i] == rows[i]
  {
  }

  /** The loop fails exactly when some row is stuck, and then with the error
      of the first such row. */
  lemma {:induction false} ParseFails(env: Env, rows: seq<Row>)
    ensures Parse(env, rows).Failure? <==> exists i :: 0 <= i < |rows| && Stuck(env, rows[i])
    ensures Parse(env, rows).Failure? ==>
              exists i :: FirstStuck(env, rows, i) && Parse(env, rows).error == StuckError(env, i, rows[i])
    decreases |rows|
  {
    if |rows| > 0 {
      var prefix := rows[..|rows| - 1];
      ParseFails(env, prefix);
      PrefixRows(rows);
      if Parse(env, prefix).Failure? {
        var i :| FirstStuck(env, prefix, i) && Parse(env, prefix).error == StuckError(env, i, prefix[i]);
        assert FirstStuck(env, rows, i);
      } else if Stuck(env, rows[|rows| - 1]) {
        assert FirstStuck(env, rows, |rows| - 1);
      }
    }
  }

  /** The row at `i` of the prefix without the last row is the row at `i`. */
  lemma PrefixRows(rows: seq<Row>)
    requires |rows| > 0
    ensures forall i :: 0 <= i < |rows| - 1 ==> rows[..|rows| - 1][i] == rows[i]
  {
    forall i | 0 <= i < |rows| - 1
      ensures rows[..|rows| - 1][i] == rows[i]
    {
      PrefixIndex(rows, i);
    }
  }

  /** The images of a prefix, extended by the step for the next row, are
      the images of the longer prefix. */
  lemma ImagesExtend(env: Env, rows: seq<Row>, images: seq<ImageInfo>, next: seq<ImageInfo>)
    requires |rows| > 0
    requires ImagesMatch(env, rows[..|rows| - 1], images)
    requires next == images + (if Readable(env, rows[|rows| - 1]) then [ImageFor(env, |rows| - 1, rows[|rows| - 1])] else [])
    ensures ImagesMatch(env, rows, next)
  {
    PrefixRows(rows);
    ImagesFromRowsExtend(env, rows, images, next);
    ImagesInOrderExtend(|rows| - 1, images, next);
    ImagesCoverExtend(env, rows, images, next);
  }

  lemma ImagesInOrderExtend(n: int, images: seq<ImageInfo>, next: seq<ImageInfo>)
    requires ImagesInOrder(images)
    requires forall j :: 0 <= j < |images| ==> images[j].id < n
    requires next == images || (|next| == |images| + 1 && next[..|images|] == images && next[|images|].id == n)
    ensures ImagesInOrder(next)
  {
    if next != images {
      forall a, b | 0 <= a < b < |next|
        ensures next[a].id < next[b].id
      {
        assert next[a] == images[a] by { assert next[..|images|][a] == next[a]; }
        if b < |images| {
          assert next[b] == images[b] by { assert next[..|images|][b] == next[b]; }
        }
      }
    }
  }

  lemma ImagesFromRowsExtend(env: Env, rows: seq<Row>, images: seq<ImageInfo>, next: seq<ImageInfo>)
    requires |rows| > 0
    requires forall i :: 0 <= i < |rows| - 1 ==> rows[..|rows| - 1][i] == rows[i]
    requires ImagesFromRows(env, rows[..|rows| - 1], images)
    requires next == images + (if Readable(env, rows[|rows| - 1]) then [ImageFor(env, |rows| - 1, rows[|rows| - 1])] else [])
    ensures ImagesFromRows(env, rows, next)
  {
    forall j | 0 <= j < |images|
      ensures next[j] == images[j]
    {
    }
  }

  lemma ImagesCoverExtend(env: Env, rows: seq<Row>, images: seq<ImageInfo>, next: seq<ImageInfo>)
    requires |rows| > 0
    requires forall i :: 0 <= i < |rows| - 1 ==> rows[..|rows| - 1][i] == rows[i]
    requires ImagesCover(env, rows[..|rows| - 1], images)
    requires next == images + (if Readable(env, rows[|rows| - 1]) then [ImageFor(env, |rows| - 1, rows[|rows| - 1])] else [])
    ensures ImagesCover(env, rows, next)
  {
    var n := |rows| - 1;
    forall i | 0 <= i < |rows| && Readable(env, rows[i])
      ensures HasImage(next, i)
    {
      if i < n {
        var j :| 0 <= j < |images| && images[j].id == i;
        assert next[j] == images[j];
      } else {
        assert next[|next| - 1].id == n;
      }
    }
  }

  /** On success the image list is exactly the readable rows. */
  lemma {:induction false} ParseImages(env: Env, rows: seq<Row>)
    requires Parse(env, rows).Success?
    ensures ImagesMatch(env, rows, Parse(env, rows).value.images)
    decreases |rows|
  {
    if |rows| > 0 {
      var prefix := rows[..|rows| - 1];
      ParseImages(env, prefix);
      ImagesExtend(env, rows, Parse(env, prefix).value.images, Parse(env, rows).value.images);
    }
  }

  /** The annotations of a prefix, extended by the step for the next row,
      are the annotations of the longer prefix. */
  lemma AnnotationsExtend(env: Env, rows: seq<Row>, anns: seq<Annotation>, next: seq<Annotation>)
    requires |rows| > 0
    requires AnnotationsMatch(env, rows[..|rows| - 1], anns)
    requires !Annotated(env, rows[|rows| - 1]) ==> next == anns
    requires Annotated(env, rows[|rows| - 1]) ==>
               rows[|rows| - 1].shape.Rect?
               && next == anns + [AnnotationFor(env, |anns|, |rows| - 1, rows[|rows| - 1].regionType.value,
                                                rows[|rows| - 1].shape)]
    ensures AnnotationsMatch(env, rows, next)
  {
    PrefixRows(rows);
    AnnotationsFromRowsExtend(env, rows, anns, next);
    AnnotationsInOrderExtend(|rows| - 1, anns, next);
    AnnotationsCoverExtend(env, rows, anns, next);
  }

  lemma AnnotationsInOrderExtend(n: int, anns: seq<Annotation>, next: seq<Annotation>)
    requires AnnotationsInOrder(anns)
    requires forall j :: 0 <= j < |anns| ==> anns[j].imageId < n
    requires next == anns || (|next| == |anns| + 1 && next[..|anns|] == anns && next[|anns|].imageId == n)
    ensures AnnotationsInOrder(next)
  {
    if next != anns {
      forall a, b | 0 <= a < b < |next|
        ensures next[a].imageId < next[b].imageId
      {
        assert next[a] == anns[a] by { assert next[..|anns|][a] == next[a]; }
        if b < |anns| {
          assert next[b] == anns[b] by { assert next[..|anns|][b] == next[b]; }
        }
      }
    }
  }

  lemma AnnotationsFromRowsExtend(env: Env, rows: seq<Row>, anns: seq<Annotation>, next: seq<Annotation>)
    requires |rows| > 0
    requires forall i :: 0 <= i < |rows| - 1 ==> rows[..|rows| - 1][i] == rows[i]
    requires AnnotationsFromRows(env, rows[..|rows| - 1], anns)
    requires !Annotated(env, rows[|rows| - 1]) ==> next == anns
    requires Annotated(env, rows[|rows| - 1]) ==>
               rows[|rows| - 1].shape.Rect?
               && next == anns + [AnnotationFor(env, |anns|, |rows| - 1, rows[|rows| - 1].regionType.value,
                                                rows[|rows| - 1].shape)]
    ensures AnnotationsFromRows(env, rows, next)
  {
    forall j | 0 <= j < |anns|
      ensures next[j] == anns[j]
    {
    }
  }

  lemma AnnotationsCoverExtend(env: Env, rows: seq<Row>, anns: seq<Annotation>, next: seq<Annotation>)
    requires |rows| > 0
    requires forall i :: 0 <= i < |rows| - 1 ==> rows[..|rows| - 1][i] == rows[i]
    requires AnnotationsCover(env, rows[..|rows| - 1], anns)
    requires !Annotated(env, rows[|rows| - 1]) ==> next == anns
    requires Annotated(env, rows[|rows| - 1]) ==>
               rows[|rows| - 1].shape.Rect?
               && next == anns + [AnnotationFor(env, |anns|, |rows| - 1, rows[|rows| - 1].regionType.value,
                                                rows[|rows| - 1].shape)]
    ensures AnnotationsCover(env, rows, next)
  {
    var n := |rows| - 1;
    forall i | 0 <= i < |rows| && Annotated(env, rows[i])
      ensures exists j :: 0 <= j < |next| && next[j].imageId == i
    {
      if i < n {
        var j :| 0 <= j < |anns| && anns[j].imageId == i;
        assert next[j] == anns[j];
      } else {
        assert next[|next| - 1].imageId == n;
      }
    }
  }

  /** On success the annotation list is exactly the labelled readable rows,
      and the counter `annotation_id` equals its length. */
  lemma {:induction false} ParseAnnotations(env: Env, rows: seq<Row>)
    requires Parse(env, rows).Success?
    ensures AnnotationsMatch(env, rows, Parse(env, rows).value.annotations)
    ensures Parse(env, rows).value.nextAnnotationId == |Parse(env, rows).value.annotations|
    decreases |rows|
  {
    if |rows| > 0 {
      var prefix := rows[..|rows| - 1];
      ParseAnnotations(env, prefix);
      AnnotationsExtend(env, rows, Parse(env, prefix).value.annotations, Parse(env, rows).value.annotations);
    }
  }

  /** Every annotation points at an image of the output. */
  lemma AnnotationsHaveImages(env: Env, rows: seq<Row>)
    requires Parse(env, rows).Success?
    ensures forall a :: 0 <= a < |Parse(env, rows).value.annotations| ==>
              HasImage(Parse(env, rows).value.images, Parse(env, rows).value.annotations[a].imageId)
  {
    ParseImages(env, rows);
    ParseAnnotations(env, rows);
    var st := Parse(env, rows).value;
    forall a | 0 <= a < |st.annotations|
      ensures HasImage(st.images, st.annotations[a].imageId)
    {
      var i := st.annotations[a].imageId;
      assert 0 <= i < |rows| && Readable(env, rows[i]);
    }
  }

  // ---------------------------------------------------------------------
  // The whole conversion
  // ---------------------------------------------------------------------

  /** `convert`, past reading the files: fails on an empty CSV, collects the
      categories over every row (readable image or not), then runs the
      parsing loop. */
  function ConvertRows(rows: seq<Row>, imread: string -> Option<ImageShape>, loadTime: string): (r: Outcome<Coco>)
    ensures r.Failure? && r.error == NoRows <==> |rows| == 0
  {
    if |rows| == 0 then Failure(NoRows)
    else
      var env := EnvOf(rows, imread, loadTime);
      match Parse(env, rows)
      case Failure(e) => Failure(e)
      case Success(st) => Success(Coco(env.categories, st.images, st.annotations))
  }

  /** The environment ConvertRows parses with. */
  function EnvOf(rows: seq<Row>, imread: string -> Option<ImageShape>, loadTime: string): Env
  {
    Env(imread, CategoryNames(rows), MakeCategories(CategoryNames(rows)), loadTime)
  }

  /** The `assert category in category_names` never fires: the names are
      collected from the very rows being parsed. So a non-empty conversion
      fails exactly when a labelled row with a readable image has a
      non-rectangular region, and then at the first such row. */
  lemma ConvertFails(rows: seq<Row>, imread: string -> Option<ImageShape>, loadTime: string)
    requires |rows| > 0
    ensures ConvertRows(rows, imread, loadTime).Failure? <==>
              exists i :: 0 <= i < |rows| && Annotated(EnvOf(rows, imread, loadTime), rows[i])
                          && rows[i].shape.OtherShape?
    ensures ConvertRows(rows, imread, loadTime).Failure? ==>
              exists i :: FirstStuck(EnvOf(rows, imread, loadTime), rows, i)
                          && ConvertRows(rows, imread, loadTime).error == MissingBoxKey(i)
  {
    var env := EnvOf(rows, imread, loadTime);
    forall i | 0 <= i < |rows| && Annotated(env, rows[i])
      ensures rows[i].regionType.value in env.names
    {
      assert IsRegionType(rows, rows[i].regionType.value);
    }
    ParseFails(env, rows);
  }

  /** A successful conversion: categories numbered 1 .. k, one per distinct
      regionType; images and annotations as ImagesMatch and AnnotationsMatch say;
      every annotation with category id 0. */
  lemma ConvertSucceeds(rows: seq<Row>, imread: string -> Option<ImageShape>, loadTime: string)
    requires ConvertRows(rows, imread, loadTime).Success?
    ensures var coco := ConvertRows(rows, imread, loadTime).value;
            var env := EnvOf(rows, imread, loadTime);
            && (forall i :: 0 <= i < |coco.categories| ==>
                  (coco.categories[i].id == i + 1 && IsRegionType(rows, coco.categories[i].name)
                   && coco.categories[i].supercategory == ""))
            && (forall i, j :: 0 <= i < j < |coco.categories| ==> coco.categories[i].name != coco.categories[j].name)
            && (forall name :: IsRegionType(rows, name) ==> exists i :: 0 <= i < |coco.categories| && coco.categories[i].name == name)
            && ImagesMatch(env, rows, coco.images)
            && AnnotationsMatch(env, rows, coco.annotations)
            && (forall a :: 0 <= a < |coco.annotations| ==> coco.annotations[a].categoryId == 0)
  {
    var env := EnvOf(rows, imread, loadTime);
    var names := CategoryNames(rows);
    ParseImages(env, rows);
    ParseAnnotations(env, rows);
    forall name | IsRegionType(rows, name)
      ensures exists i :: 0 <= i < |names| && MakeCategories(names)[i].name == name
    {
      var i :| 0 <= i < |names| && names[i] == name;
    }
    forall a | 0 <= a < |ConvertRows(rows, imread, loadTime).value.annotations|
      ensures ConvertRows(rows, imread, loadTime).value.annotations[a].categoryId == 0
    {
      CategoryIdAlwaysZero(rows[ConvertRows(rows, imread, loadTime).value.annotations[a].imageId].regionType.value, names);
    }
  }

  /** Every image of one conversion carries the same `date_captured`: the
      default argument was evaluated once, when the module was loaded. */
  lemma ConvertSharesDate(rows: seq<Row>, imread: string -> Option<ImageShape>, loadTime: string)
    requires ConvertRows(rows, imread, loadTime).Success?
    ensures forall j :: 0 <= j < |ConvertRows(rows, imread, loadTime).value.images| ==>
              ConvertRows(rows, imread, loadTime).value.images[j].dateCaptured == loadTime
  {
    ParseImages(EnvOf(rows, imread, loadTime), rows);
  }
}
