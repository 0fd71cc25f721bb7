# Face verification model: dataset construction and nearest-match identification

This project models the bookkeeping in `face_verification_model.py`, a training
script for a siamese network that tells whether two face images show the same person.
The network, the training and all file access are left to libraries. What remains,
and what is modelled and proved here, is:

- **Loading** (`images_to_list`). Each decoded `dims` x `dims` x 3 raster gets its two
  spatial axes swapped. The images of a directory keep listing order.
- **Labelling and pairing** (`data_pre_processing`). Person directory `i`, in listing
  order, gets label `i`, and every one of its images carries that label. The index pairs
  come from `meshgrid(range(N), range(N)).T.reshape(-1, 2)`. This is modelled literally,
  and entry `k` is proved to be `(k / N, k % N)`. The script then emits the first images
  `C1`, the second images `C2` and the same-person flags `Y`. The proofs cover the
  lengths, self-pairs, symmetry, and the number of positive pairs (the sum of the squared
  per-person counts).
- **Flattening** (`list_to_flatten`). A stack of images is reshaped row-major into
  vectors. Each row is proved to be one image's values, and reshaping a row to
  (`dims`, `dims`, 3) is proved to give the image back.
- **Matching** (the probe loop at the end of the script). Each probe is scored against
  the first `N` flattened second images, which are proved to be the `N` training images in
  order. The first best score is chosen (`np.argmax`). The report is the chosen image's
  person name and its score. The loop stops at the first probe whose match fails.

Modules: `NdArray` (`ndarray.dfy`) holds the numpy operations over nested sequences.
`Dataset` (`dataset.dfy`) holds loading, labels, pairs and flattening. `Matching`
(`matching.dfy`) holds argmax, per-probe matching, the probe loop and the script as a whole.

Two behaviours of the matching step are worth stating:
- The gallery is all `N` training images (`C2[:N]`, lines 147-149), each with its own
  label, not one image per person.
- A names list that is too short is not rejected up front. A probe fails only when the
  label of its best match has no name (line 165).

## Model

| member | source | states |
|---|---|---|
| `NdArray.Reshape` | face_verification_model.py:82 | reshaping `rows * w` values gives `rows` rows of exactly `w` values |
| `NdArray.ConcatAt` | face_verification_model.py:82 | row-major order: element (i, j) of a width-`w` matrix is at `i * w + j` once flattened |
| `NdArray.ReshapeConcat` | face_verification_model.py:82 | flattening a matrix and reshaping to its row width gives the matrix back |
| `NdArray.ConcatReshape` | face_verification_model.py:82 | reshaping values into rows and flattening again gives the values back |
| `NdArray.ConcatConcat` | face_verification_model.py:81-82 | flattening two axes at once is flattening each element, then the results |
| `NdArray.SwapAxes` | face_verification_model.py:46 | the axis swap maps shape (h, w) to (w, h) with `out[x][y] = in[y][x]` |
| `NdArray.SwapAxesInvolution` | face_verification_model.py:46 | swapping the two axes twice gives the original array |
| `NdArray.MeshGrid` | face_verification_model.py:72 | `meshgrid(xs, ys)` is two arrays of shape (len(ys), len(xs)); the first holds `xs[c]` at (r, c), the second `ys[r]` |
| `NdArray.Transpose3` | face_verification_model.py:73 | `.T` of a (d0, d1, d2) array has shape (d2, d1, d0), and its value at (i, j, k) is the input's value at (k, j, i) |
| `Dataset.Oriented` | face_verification_model.py:44-46 | a loaded image keeps the `dims` x `dims` x 3 shape, and its value (x, y, c) is the raster's value (y, x, c) |
| `Dataset.OrientAll` | face_verification_model.py:42-48 | a directory yields one image per raster, in order: image k is raster k with its axes swapped |
| `Dataset.ImagesToList` | face_verification_model.py:32-48 | the loop loads every raster in order: `images[k][x][y][c] == rasters[k][y][x][c]` |
| `Dataset.OrientedInvolution` | face_verification_model.py:46 | swapping a loaded image's axes again recovers the decoded raster |
| `Dataset.Loaded` | face_verification_model.py:63-68 | the training images number the sum of the directory sizes (so one per label), all of image shape; their order is stated by `LabelsTagImages` |
| `Dataset.Labels` | face_verification_model.py:63-67 | the label list has one entry per directory entry; its values are stated by `LabelsBound`, `LabelsSorted` and `LabelsTagImages` |
| `Dataset.LabelsBound` | face_verification_model.py:64-67 | every label is the index of some directory |
| `Dataset.LabelsSorted` | face_verification_model.py:64-67 | labels never decrease along the list |
| `Dataset.LabelsTagImages` | face_verification_model.py:64-67 | image j of directory i is at offset (sizes of directories before i) + j, and its label is i |
| `Dataset.GalleryLabelsAgree` | face_verification_model.py:147-148 | chaining the per-directory lists of copies of each directory index gives the training labels |
| `Dataset.GalleryLabels` | face_verification_model.py:147-148 | the labels rebuilt before matching equal the labels built for training |
| `Dataset.Combinations` | face_verification_model.py:71-73 | meshgrid, `.T` and `reshape(-1, 2)` give N * N rows of two values; their values are stated by `CombinationsSpec` |
| `Dataset.CombinationsAt` | face_verification_model.py:71-73 | the pair (i, j) is entry `i * N + j` of the N * N combinations |
| `Dataset.CombinationsEntry` | face_verification_model.py:71-73 | entry k of the combinations is `(k / N, k % N)` |
| `Dataset.CombinationsSpec` | face_verification_model.py:71-73 | exactly N * N combinations, each a pair of indices below N, entry k being `(k / N, k % N)` |
| `Dataset.PairFirsts` | face_verification_model.py:74 | one first image per combination, each one of the images; which one is stated by `PairsAt` |
| `Dataset.PairSeconds` | face_verification_model.py:74 | one second image per combination, each one of the images; which one is stated by `PairsAt` |
| `Dataset.PairLabels` | face_verification_model.py:75 | one flag per combination, each 0 or 1 (a boolean cast to `int`); which one is stated by `PairsAt` |
| `Dataset.PairsAt` | face_verification_model.py:71-75 | entry k of the pairs holds image k / N first, image k % N second, and 1 exactly when their labels are equal |
| `Dataset.SelfPairsPositive` | face_verification_model.py:74-75 | entry `i * N + i` pairs image i with itself and is labelled 1 |
| `Dataset.PairsSymmetric` | face_verification_model.py:74-75 | entries (i, j) and (j, i) hold mirrored images and the same label |
| `Dataset.GalleryIsImages` | face_verification_model.py:74 | the first N second images are the N images in order |
| `Dataset.LabelsSelfMatches` | face_verification_model.py:67 | summed over images, the number of images sharing each label is the sum of squared directory sizes |
| `Dataset.PairLabelsRows` | face_verification_model.py:71-75 | read row by row, the pair labels compare image i with every image j |
| `Dataset.PositivePairs` | face_verification_model.py:67-75 | the number of pairs labelled 1 is the sum over people of the square of their image count |
| `Dataset.TwoAndOneScenario` | face_verification_model.py:63-75 | two images of one person and one of another give nine pairs, five labelled 1 |
| `Dataset.DataPreProcessing` | face_verification_model.py:50-78 | the loops load every directory in listing order and label each image with its directory index; the results are the first images, second images and same-person flags of the N * N combinations of those images and labels (entry k as in `PairsAt`); sum(count²) of the flags are 1; every pair image is an image; the first N second images are the image list |
| `Dataset.Ravel` | face_verification_model.py:82 | a flattened image has dims * dims * 3 values |
| `Dataset.RavelAt` | face_verification_model.py:82 | value (x, y, c) of a flattened image is at `(x * dims + y) * 3 + c` |
| `Dataset.StackRavel` | face_verification_model.py:81-82 | the values of an image stack are the image vectors laid end to end |
| `Dataset.ListToFlatten` | face_verification_model.py:80-83 | flattening keeps the number of images, each row having dims * dims * 3 values |
| `Dataset.ListToFlattenRows` | face_verification_model.py:80-83 | row n of the flattened stack is image n in row-major order |
| `Dataset.FlattenRoundTrip` | face_verification_model.py:82 | reshaping a flattened row to (dims, dims, 3), as line 156 does, gives the image back |
| `Dataset.Unflatten` | face_verification_model.py:156 | reshaping a vector of dims * dims * 3 values to (dims, dims, 3) gives an image of that shape |
| `Dataset.UnflattenRoundTrip` | face_verification_model.py:156 | flattening the reshaped vector gives the vector back |
| `Matching.ArgMax` | face_verification_model.py:163 | argmax picks a position of the largest score with no earlier position holding it |
| `Matching.FirstMaxUnique` | face_verification_model.py:163 | that position is unique |
| `Matching.Scores` | face_verification_model.py:160 | one score per gallery image, in gallery order: score s is the network's score of the probe against gallery image s |
| `Matching.MatchProbe` | face_verification_model.py:160-165 | empty gallery fails; otherwise the result is the name of the first best image's label and its score, which no other score exceeds, or an unknown-identity error when that label has no name |
| `Matching.SingleEntryGallery` | face_verification_model.py:163-165 | a one-image gallery reports that image's name and raw score |
| `Matching.NamesCoverIdentities` | face_verification_model.py:152-165 | with a name for every directory and a non-empty gallery, every probe is identified |
| `Matching.TwoPersonScenario` | face_verification_model.py:152-166 | scores 0.3 and 0.9 for Angelina and Brad report Brad with 0.9 |
| `Matching.RunMatches` | face_verification_model.py:153-166 | one line per probe, in order, each that probe's match, stopping at the first probe whose match fails |
| `Matching.ReportUnique` | face_verification_model.py:153-166 | the probe loop's report (`IsReport`) is determined by the probes, gallery, labels, names and network |
| `Matching.ReportLength` | face_verification_model.py:153-166 | no report of a run is shorter than another, and equally long reports end the same way |
| `Matching.EmptyGalleryReport` | face_verification_model.py:149-163 | with no training images, the first probe stops the loop before any line is reported |
| `Matching.FlattenedGallery` | face_verification_model.py:128-149 | the first N flattened second images are the flattened training images |
| `Matching.Evaluate` | face_verification_model.py:127-166 | the training inputs are the flattened first and second images of all N * N pairs, with same-person flags of which sum(count²) are 1; the report is the probe loop run on the flattened probes against the flattened training images and their labels |

## Left out

- Mounting the drive, `os.listdir`, `load_img` and `resize` are file I/O and library calls. A
  directory is given as the sequence of its decoded `dims` x `dims` RGB rasters, in listing order.
  The root is the sequence of person directories. Every directory entry is taken to be a decodable
  image; otherwise `load_img` raises, and that is not modelled.
- Division by 255 and the cast to `float32` are floating-point numerics. Pixel values are an opaque type.
- The networks (`BasicNet`, `LeNet5`, `cnn_model`), `compile`, `fit`, `predict`, the checkpoint and
  the learning-rate schedule are out of scope. The trained network is the parameter `score`, a
  total function from two image vectors to a real number. Training only consumes the returned
  `x1`, `x2`, `y`.
- Matching.Evaluate: with no training images (N = 0), `fit` at line 139 is given empty arrays and
  most likely raises, so the script stops before the probe loop. The model has no training step
  and goes on: it reports `Aborted([], EmptyGallery)` (`EmptyGalleryReport`), or `Finished([])`
  when there are no probes either.
- Matching.Scores: scores are reals, so NaN scores and floating-point comparison are not
  modelled. `predict` returns a one-element array per sample, and `argmax` over those is taken as
  argmax over the scalars.
- `plt.imshow`, `np.rot90`, `print` and `round(100 * score, 2)` are display only. A report line
  carries the raw score, not the rounded percentage.
- Matching.Evaluate: the slice `C2[:N]` is modelled as a plain prefix, since N <= N * N always
  holds; Python's truncation of an over-long slice never applies.
- The order of a directory listing is taken as given: the input sequences are in listing order.
