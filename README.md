# Convolution, blurring, downsampling and kernel interpolation

This project models the numerical core of the `machine-vision` teaching
repository. That core has five parts:

- **Educational convolution.** `src/conv.py` has 1D/2D, full/valid convolution with step and padding; `classes/core/conv.py` is its 1D-only copy.
- **Strided 2D convolution.** `classes/convolution/src/conv.py` computes it with `as_strided` and `einsum`. Its blur kernels are in `classes/convolution/src/kernels.py`.
- **Block downsampling.** `src/interpolation/downsampling.py` covers mean, any aggregate, and colour images.
- **Interpolation kernels.** `classes/interpolation/src/kernels.py` and `src/interpolation/kernels.py` hold sample-and-hold, nearest neighbour, linear, Keys cubic and their 2D forms.
- **Kernel interpolation.** It appears in two versions:
  - `src/interpolate/core.py`, `src/interpolate/dirac.py` and `src/interpolation/conv.py`;
  - `classes/interpolation/src/interpolate.py` and `classes/interpolation/src/conv.py`.

  It includes the product form, the convolution form, separable image interpolation, joint 2D interpolation, RGB images and the dirac-comb upsampler.

**How the model represents things:**

- Arrays are sequences of `real`.
- A 2D array is `Numerics.Matrix` (height, width, rows).
- The number of axes of a numpy result is `Numerics.NdArray` (scalar, vector, grid, or a tensor of three or more axes).
- Every Python or numpy exception the code can raise is a case of `Numerics.Error`, returned through `Result`.
- A kernel callable, which numpy applies elementwise, is a function of one position, offset and width.

**How the code and its specification are tied together:**

- The loops of `src/conv.py` are methods over `array`/`array2`. Each is proved equal to a specification function.
- Lemmas about those specification functions relate them to the mathematical convolution:
  - `Reference.ConvAt` is the sum of x[i] h[t - i];
  - `Reference.Conv2At` is its 2D form;
  - `Reference.NpConvolve` follows numpy's documented `np.convolve`, which the repository's test compares against.
- The loops of `image_interpolate2d` and `dirac_interpolate` are methods too.
- Everything else is expressions over arrays, modelled as functions with lemmas.

## Model

| member | source | states |
|---|---|---|
| ConvEngine.FullConv1d | src/conv.py:8-35 | the nested loop computes exactly the full-convolution specification, including its errors (zero step, negative output size) |
| ConvEngine.FullAccIsConvolution | src/conv.py:28-33 | the inner loop's bounds-checked accumulation at output t is the convolution sum of x[i] k[t - i] |
| ConvEngine.FullConv1dMeaning | src/conv.py:8-35 | fails iff the step is 0 or the ceil-divided size is negative; otherwise has ceil((n + 2p + m - 1) / step) entries and entry k is the convolution at k * step of the UNPADDED signal |
| ConvEngine.FullConv1dZeroTail | src/conv.py:9-14 | entries whose position lies past the last overlap of signal and kernel (the positions padding adds) are 0 |
| ConvEngine.FullConv1dPaddingAppendsZeros | src/conv.py:9-14 | more padding only appends zeros: the shorter output is a prefix of the longer one |
| ConvEngine.FullConv1dMatchesNumpy | tests/test_conv.py:9-13 | with step 1 and no padding the full convolution equals numpy's 'full' convolution |
| ConvEngine.ValidConv1d | src/conv.py:38-56 | the loop computes exactly the valid-convolution specification, including its errors |
| ConvEngine.ValidEntryIsConvolution | src/conv.py:40-54 | the window sum against the reversed kernel at index c * step is the convolution at c * step + m - 1 |
| ConvEngine.ValidConv1dMeaning | src/conv.py:38-56 | fails iff the step is 0 or the size is negative; the length is ceil((n + 2p - m + 1) / step); entry c is the convolution at c * step + m - 1 when that window fits in the unpadded signal, else 0 |
| ConvEngine.ValidConv1dPaddingAppendsZeros | src/conv.py:41-47 | more padding only appends zeros to the valid result |
| ConvEngine.ValidConv1dMatchesNumpy | tests/test_conv.py:9-13 | with step 1 and no padding the valid convolution equals numpy's 'valid' convolution |
| ConvEngine.FullConv2dRow | src/conv.py:92-95 | one pass of the inner loop writes row h of the output (windows that fit, at multiples of the step) and leaves every other row unchanged |
| ConvEngine.FullConv2d | src/conv.py:59-97 | the double loop computes exactly the 2D full-convolution specification |
| ConvEngine.FullWindowIsConvolution | src/conv.py:62-95 | the window of the doubly padded image times the flipped kernel is the 2D convolution at (i, j) |
| ConvEngine.FullConv2dMeaning | src/conv.py:59-97 | fails iff the step is 0 or the kernel has an empty axis; the shape is the ceil-divided full shape; cell (i, j) is the 2D convolution when both are multiples of the step and within the unpadded full extent, else 0 |
| ConvEngine.FullConv2dIsConvolution | src/conv.py:59-97 | with step 1 and no padding, every cell of the (H + kh - 1) x (W + kw - 1) result is the 2D convolution |
| ConvEngine.ValidConv2dRow | src/conv.py:120-127 | one row pass succeeds iff every window of the row broadcasts against the kernel, then writes that row's slots and nothing else |
| ConvEngine.ValidConv2dRows | src/conv.py:119-127 | the outer loop succeeds iff every row and column window broadcasts; it then fills every slot, and on failure names the first failing row |
| ConvEngine.ValidConv2d | src/conv.py:100-129 | the method computes exactly the 2D valid-convolution specification: a kernel larger than the padded image is the too-large error, any window that does not broadcast against the kernel fails the whole call with a broadcast error, and otherwise the output is the grid of window sums |
| ConvEngine.ValidConv2dFill | src/conv.py:117-129 | allocation and filling of the output give the specification's result |
| ConvEngine.ValidWindowIsConvolution | src/conv.py:103-127 | a window sum against the flipped kernel is the 2D convolution at its bottom-right corner |
| ConvEngine.ValidConv2dTooLarge | src/conv.py:114-115 | the "too large" error is raised iff the kernel exceeds the padded image on some axis |
| ConvEngine.ValidConv2dUnpadded | src/conv.py:100-129 | without padding, a step-s result has ceil((H - kh + 1) / s) rows; the first ceil(rows / s) rows and columns hold the convolution at i*s + kh - 1 and j*s + kw - 1, the rest stay 0 |
| ConvEngine.ValidConv2dIsConvolution | src/conv.py:100-129 | with step 1 and no padding, every cell is the 2D convolution at (i + kh - 1, j + kw - 1) |
| ConvEngine.ValidConv2dIsValidBlock | src/conv.py:100-129 | with step 1 and no padding the result is the valid block of the 2D convolution |
| ConvEngine.ValidConv2dPaddingMismatch | src/conv.py:101-127 | with positive padding and a kernel of 2 to H rows, the windows are cut from the unpadded image and the call fails with a broadcast error |
| ConvEngine.Convolve | src/conv.py:132-165 | differing ndim is an error; each (mode, ndim) pair of full/valid and 1/2 dispatches to its routine; any other ndim above 2 or other mode is the matching error |
| CoreConv.FullConv | classes/core/conv.py:7-31 | the copy computes the same full convolution as src/conv.py |
| CoreConv.ValidConv | classes/core/conv.py:34-52 | the copy computes the same valid convolution as src/conv.py |
| CoreConv.Convolve | classes/core/conv.py:55-76 | "full" and "valid" dispatch to the two routines; any other mode is an error |
| Reference.NpConvolve | tests/test_conv.py:13 | numpy's convolve fails iff an operand is empty; otherwise it has the length of its mode and entry k is the convolution at k plus the mode's offset |
| Reference.ConvCommutes | src/conv.py:136 | the convolution sum is symmetric in signal and kernel |
| Reference.ConvAtOutside | src/conv.py:30-31 | outside 0 .. n + m - 2 the convolution is 0 (no index lands in the signal) |
| Reference.FlippedWindow | src/conv.py:39-40 | the convolution at t is the window sum of the signal against the reversed kernel |
| Reference.Conv2ValidExt | src/conv.py:100-129 | a matrix of the valid shape whose cells are the 2D convolution at their corners is the valid block |
| StridedConv.PadImage | classes/convolution/src/conv.py:15-16 | the image grows by p on every side; every position reads the image shifted by p, or 0 outside it |
| StridedConv.StridedInputPadding | classes/convolution/src/conv.py:15-16 | no padding leaves the image as it is; padding p embeds it at offset (p, p) in zeros |
| StridedConv.StridedWindowInBounds | classes/convolution/src/conv.py:22-26 | every strided window of the computed output shape lies inside the input |
| StridedConv.StridedExtentNegative | classes/convolution/src/conv.py:22 | the floor-divided extent is negative iff n - k + stride < 0 |
| StridedConv.CorrelateIsFlippedConvolution | classes/convolution/src/conv.py:27 | the einsum of a window with the kernel is the 2D convolution with the flipped kernel |
| StridedConv.ConvolveWithStrideMeaning | classes/convolution/src/conv.py:6-27 | fails iff the stride is 0 or an extent is negative; the shape is (n - k) // stride + 1; the last window fits; cell (i, j) is the flipped-kernel convolution at (i*stride + kh - 1, j*stride + kw - 1) |
| StridedConv.StridedCellConvolution | classes/convolution/src/conv.py:25-27 | each output cell is the flipped-kernel convolution over its window, and that window lies inside the input |
| StridedConv.StridedMatchesValidConvolution | classes/convolution/src/conv.py:6-27 | with stride 1 and no padding the strided correlation equals src/conv.py's valid 2D convolution with the flipped kernel |
| StridedConv.StridedIsValidBlock | classes/convolution/src/conv.py:6-27 | with stride 1 and no padding it is the valid block of the convolution with the flipped kernel |
| StridedConv.StridedIsConvolution | classes/convolution/src/conv.py:6-27 | with stride 1 and no padding it succeeds with shape (H - kh + 1) x (W - kw + 1) and convolution cells |
| StridedConv.CorrelateLinearInKernel | classes/convolution/src/conv.py:27 | the window sum is linear in the kernel |
| StridedConv.CorrelateLinearInImage | classes/convolution/src/conv.py:27 | the window sum is linear in the image |
| StridedConv.StridedLinearInKernel | classes/convolution/src/conv.py:6-27 | a linear combination of kernels gives the same combination of outputs, cell by cell |
| StridedConv.StridedLinearInImage | classes/convolution/src/conv.py:6-27 | a linear combination of images gives the same combination of outputs, cell by cell |
| StridedConv.StridedSameShape | classes/convolution/src/conv.py:22 | success and output shape depend only on the shapes, not on the values |
| BlurKernels.BlurKernel | classes/convolution/src/kernels.py:6-11 | a negative size is a negative-dimensions error; otherwise size x size entries all equal to 1 / size² |
| BlurKernels.BlurKernelSumsToOne | classes/convolution/src/kernels.py:6-11 | the box kernel's entries sum to 1 |
| BlurKernels.BlurIsLocalMean | classes/convolution/src/kernels.py:8-11 | correlating with the box kernel gives the mean of the size x size window |
| BlurKernels.BlurConvolutionIsLocalMean | classes/convolution/src/kernels.py:8-11 | every cell of a strided convolution with the box kernel is the mean of its (padded) window |
| BlurKernels.MeshZeroOnlyAtCentre | classes/convolution/src/kernels.py:22-25 | the Manhattan mesh is 0 exactly at the centre |
| BlurKernels.MeshSymmetric | classes/convolution/src/kernels.py:22-25 | the mesh is symmetric under swapping the axes and, for odd sizes, under mirroring either axis |
| BlurKernels.GaussianBlurKernel | classes/convolution/src/kernels.py:14-31 | an even size is rejected first; then a negative size is a negative-dimensions error; otherwise a size x size kernel with positive entries |
| BlurKernels.GaussianNormalised | classes/convolution/src/kernels.py:30-31 | the Gaussian kernel sums to 1 |
| BlurKernels.GaussianEntry | classes/convolution/src/kernels.py:27-31 | each entry is the density at its mesh distance divided by the (positive) total |
| BlurKernels.GaussianSymmetric | classes/convolution/src/kernels.py:22-31 | the Gaussian kernel is symmetric under transposition and under mirroring either axis |
| BlurKernels.GaussianPeakAtCentre | classes/convolution/src/kernels.py:22-31 | for a density that does not increase with distance, no entry exceeds the centre entry |
| Downsampling.BlocksCover | src/interpolation/downsampling.py:8 | the non-overlapping blocks of size k cover the image except a remainder shorter than k |
| Downsampling.BlockInside | src/interpolation/downsampling.py:8 | every position inside block i lies inside the image |
| Downsampling.ViewAsWindows | src/interpolation/downsampling.py:8 | fails iff k < 1 (step too small) or k exceeds an axis (window too large); otherwise a grid of floor(H/k) x floor(W/k) windows, window (i, j) the block at (i*k, j*k) |
| Downsampling.BlockEntry | src/interpolation/downsampling.py:8 | entry (a, b) of window (i, j) is image pixel (i*k + a, j*k + b) |
| Downsampling.SeqMax | src/interpolation/downsampling.py:12 | the maximum aggregate bounds every element and is attained |
| Downsampling.Squeeze | src/interpolation/downsampling.py:9 | squeeze drops exactly the axes of extent 1 |
| Downsampling.SqueezeRoundTrip | src/interpolation/downsampling.py:9 | the squeezed result still determines the block grid: unsqueezing restores it |
| Downsampling.Downsample | src/interpolation/downsampling.py:5-9 | a negative size fails building the kernel, size 0 is a step error, a block larger than an axis is a window error; otherwise the result has one axis per block count above 1 |
| Downsampling.DownsampleAsGrid | src/interpolation/downsampling.py:5-9 | when it succeeds the result is the squeezed grid of block means |
| Downsampling.DownsampleIsBlockMean | src/interpolation/downsampling.py:5-9 | every cell of the block grid is the mean of its k x k block |
| Downsampling.DownsampleIsStridedBlur | src/interpolation/downsampling.py:5-9 | downsampling equals the strided convolution with the box blur kernel, stride k and no padding |
| Downsampling.DownsampleConstant | src/interpolation/downsampling.py:5-9 | a constant image downsamples to the same constant |
| Downsampling.BlockSum | src/interpolation/downsampling.py:9 | summing a window is summing the image over the block |
| Downsampling.WeightedBlockSum | src/interpolation/downsampling.py:7-9 | summing a weighted window is the correlation of the image with the kernel at the block corner |
| Downsampling.BoxBlockMean | src/interpolation/downsampling.py:7-9 | with the box kernel the weighted window sum is the block mean |
| Downsampling.NonlinearDownsample | src/interpolation/downsampling.py:12-15 | fails iff k < 1 or k exceeds an axis; otherwise one axis per block count above 1 |
| Downsampling.NonlinearCell | src/interpolation/downsampling.py:12-15 | cell (i, j) of the block grid is the aggregate of block (i, j) |
| Downsampling.NonlinearSumIsBlockSum | src/interpolation/downsampling.py:12-15 | with np.sum each cell is the block sum |
| Downsampling.DownsampleIsScaledSum | src/interpolation/downsampling.py:5-15 | the mean downsample is the sum downsample divided by k² |
| Downsampling.BlockMax | src/interpolation/downsampling.py:12 | the max aggregate of a window bounds its block and is attained in it |
| Downsampling.NonlinearMaxIsBlockMax | src/interpolation/downsampling.py:12-15 | with np.max each cell is the maximum of its block |
| Downsampling.MedianOfColumnMedians | src/interpolation/downsampling.py:12-15 | as written, with any aggregate that returns a median, the block [[1, 1, 9], [1, 1, 9], [9, 9, 9]] becomes 1, and 1 is not a median of its nine pixels |
| Downsampling.NonlinearDownsampleJoint | src/interpolation/downsampling.py:12-15 | the corrected reduction over both window axes at once fails exactly when `nonlinear_downsample` does, with the same errors and rank |
| Downsampling.NonlinearJointCell | src/interpolation/downsampling.py:12-15 | corrected: cell [i, j] is the aggregate of all pixels of block [i, j] |
| Downsampling.JointMedianIsBlockMedian | src/interpolation/downsampling.py:12-15 | corrected, with a median aggregate: every cell is a median of its block's pixels, and the example block becomes 9 |
| Downsampling.JointMaxAgrees | src/interpolation/downsampling.py:15 | for np.max, reducing both axes at once equals reducing axis by axis, so max pooling is unchanged by the correction |
| Downsampling.DownsampleExtents | src/interpolation/downsampling.py:9 | the squeezed result's extents are the block counts with the 1s removed |
| Downsampling.RgbDownsample | src/interpolation/downsampling.py:18-20 | success stacks three per-channel results of one shape, each what the function returns for its plane; failure is the first failing channel, a shape mismatch, or an axis error when the results have fewer than 2 axes |
| Downsampling.RgbDownsampleOutcome | src/interpolation/downsampling.py:18-20 | with the mean downsample, success iff 0 < k fits both axes and both block counts exceed 1; the error is the plane's error or an axis error for a squeezed result; planes are the block-mean grids |
| Downsampling.RgbDownsampleFits | src/interpolation/downsampling.py:18-20 | when k fits, success iff both block counts exceed 1, otherwise the stack's axis error |
| Downsampling.RgbDownsampleRejects | src/interpolation/downsampling.py:18-20 | when k does not fit, the colour call fails with the first plane's error |
| InterpKernels.SampleHold | classes/interpolation/src/kernels.py:4-7 | the weight is 1 exactly on [offset, offset + width), else 0 |
| InterpKernels.Nearest | classes/interpolation/src/kernels.py:10-13 | the weight is 1 exactly on [offset - width/2, offset + width/2), else 0 |
| InterpKernels.NearestIsCentredSampleHold | classes/interpolation/src/kernels.py:4-13 | nearest neighbour is sample-and-hold shifted back by half a width |
| InterpKernels.LinearRange | classes/interpolation/src/kernels.py:16-20 | the triangle lies in [0, 1], is 1 only at the offset, and is positive exactly within one width |
| InterpKernels.KeysNearAsWritten | classes/interpolation/src/kernels.py:41 | the near piece is (a+2)u³ - (a+3)u² + 1 |
| InterpKernels.KeysFarAsWritten | classes/interpolation/src/kernels.py:42 | the far piece is a u³ - 5a u² + 8a u - 4a |
| InterpKernels.KeysGatedSelects | classes/interpolation/src/kernels.py:41-43 | the products of boolean masks select the near piece below 1, the far piece in [1, 2) and 0 beyond |
| InterpKernels.KeysIsPiecewise | classes/interpolation/src/kernels.py:30-43 | the Keys kernel is the piecewise cubic of the normalised distance |
| InterpKernels.KeysPiecesMeet | classes/interpolation/src/kernels.py:41-43 | the pieces are 1 at 0 and meet at 0 at distances 1 and 2 (continuity) |
| InterpKernels.KeysAtSamples | classes/interpolation/src/kernels.py:30-43 | Keys is 1 at its offset, 0 one width away and 0 from two widths on |
| InterpKernels.TranslationInvariant | classes/interpolation/src/kernels.py:4-43 | shifting position and offset together leaves every kernel unchanged |
| InterpKernels.Symmetric | classes/interpolation/src/kernels.py:16-43 | the linear and Keys kernels are even around their offset |
| InterpKernels.LinearOnLattice | classes/interpolation/src/kernels.py:16-20 | on the lattice offset + n * width, the linear kernel is 1 at n = 0 and 0 elsewhere |
| InterpKernels.KeysOnLattice | classes/interpolation/src/kernels.py:30-43 | the same interpolation property for Keys, for every alpha |
| InterpKernels.BoxesOnLattice | classes/interpolation/src/kernels.py:4-13 | the same for sample-and-hold and nearest neighbour |
| InterpKernels.SampleHold2d | classes/interpolation/src/kernels.py:46-50 | the 2D box is the product of the two 1D boxes |
| InterpKernels.Nearest2d | classes/interpolation/src/kernels.py:53-57 | the 2D nearest kernel is the product of the two 1D kernels |
| InterpKernels.Linear2dIsProduct | classes/interpolation/src/kernels.py:60-66 | the 2D linear kernel is the product of the 1D triangles |
| InterpKernels.Linear2dOnLattice | classes/interpolation/src/kernels.py:60-66 | at unit width it is 1 at its own integer point and 0 at every other one |
| InterpKernels.QuadrantsAreProduct | classes/interpolation/src/kernels.py:90-115 | the four masked terms of the 2D Keys kernel are the product of the two gated 1D profiles |
| InterpKernels.Keys2dIsProduct | classes/interpolation/src/kernels.py:77-115 | the 2D Keys kernel is the product of the 1D Keys kernels |
| KernelInterpolation.LinearKernelInterpolates | classes/interpolation/src/kernels.py:16-20 | the linear callable weighs every other sample of its lattice 0 and its own sample 1 |
| KernelInterpolation.KeysKernelInterpolates | classes/interpolation/src/kernels.py:30-43 | the same for the Keys callable |
| KernelInterpolation.BoxKernelsInterpolate | classes/interpolation/src/kernels.py:4-13 | the same for the two box callables at positive width |
| KernelInterpolation.ProductInterpolate | src/interpolate/core.py:28-44 | fewer than two measurements is an index error, a y length differing from x is a shape error, otherwise one value per interpolation point |
| KernelInterpolation.ProductInterpolateLinear | src/interpolate/core.py:28-44 | interpolation is linear in the measurements |
| KernelInterpolation.WeightedAtSample | src/interpolate/core.py:41-44 | with even spacing and an interpolating kernel, the weighted sum at sample m is y[m] |
| KernelInterpolation.ProductInterpolatePassesThrough | src/interpolate/core.py:28-44 | evenly spaced samples and a lattice-interpolating kernel reproduce the samples at their own positions |
| KernelInterpolation.LinearInterpolationPassesThrough | src/interpolate/core.py:28-44 | linear interpolation passes through its samples |
| KernelInterpolation.UpGridPoint | src/interpolate/core.py:53 | grid point j of the interpolation axis is j / ratio |
| KernelInterpolation.UpGridAligned | src/interpolate/core.py:52-53 | grid index q * ratio falls exactly on sample q |
| KernelInterpolation.InterpolateLineOutcome | src/interpolate/core.py:50-54 | a row succeeds iff it has two samples and the ratio is non-negative; a negative count or a missing second sample is the matching error; the result has ratio * n values |
| KernelInterpolation.InterpolateLineEntry | src/interpolate/core.py:50-54 | value j of a row is its kernel-weighted sum at j / ratio with width 1 |
| KernelInterpolation.InterpolateLineAtSamples | src/interpolate/core.py:50-54 | value q * ratio of an interpolated row is sample q |
| KernelInterpolation.InterpolateRows | src/interpolate/core.py:56 | no rows is numpy's empty-iteration error; the first row's error propagates; otherwise every row is interpolated |
| KernelInterpolation.ImageInterpolate1dOutcome | src/interpolate/core.py:47-57 | succeeds iff the image is at least 2 x 2 and the ratio is at least 1; each other case gives its own error; the result is (ratio H) x (ratio W) |
| KernelInterpolation.ImageInterpolate1dEntry | src/interpolate/core.py:47-57 | entry (p, q) is the column pass's weighted sum, at p / ratio, of the row-pass values at q / ratio |
| KernelInterpolation.ImageInterpolate1dAtSamples | src/interpolate/core.py:47-57 | with an interpolating kernel, entry (p*ratio, q*ratio) is pixel (p, q) |
| KernelInterpolation.TransposeInvolutive | src/interpolate/core.py:56-57 | transposing twice gives the matrix back, so the column pass, made on the transposed image and transposed back, keeps the rows and columns where they were |
| KernelInterpolation.ConvolveSampleSame | src/interpolate/core.py:18 | 'same' convolution of a single value with a row scales the row by it |
| KernelInterpolation.ConvolveInterpolateAsWritten | src/interpolate/core.py:10-25 | as written: fewer than two x is an index error; two or more pairs with points to evaluate fail calling an array; otherwise at most one scaled kernel row is summed |
| KernelInterpolation.ConvolveInterpolateRebindingFails | src/interpolate/core.py:16-19 | on two samples interpolated at their own points, the loop as written fails with the not-callable error; the corrected loop returns the samples, which is product interpolation's answer |
| KernelInterpolation.ConvolveInterpolate | src/interpolate/core.py:10-25 | corrected: fails only on a missing second x or on no interpolation points; the result is the column sums of the scaled kernel rows, plus the rows when requested |
| KernelInterpolation.ConvolveInterpolateIsProduct | src/interpolate/core.py:10-44 | the convolution form and the matrix-product form give the same values |
| KernelInterpolation.MapChannels | src/interpolate/core.py:114 | the comprehension succeeds iff every channel does, in order; otherwise the first failing channel's error |
| KernelInterpolation.RgbImageInterpolate | src/interpolate/core.py:103-114 | success stacks three planes of one shape, each the interpolator's result for its channel; failure is the first failing channel or a shape mismatch |
| KernelInterpolation.SeparablePlanes | src/interpolate/core.py:103-114 | the default interpolator on each plane is the separable one, with its outcome and shape |
| KernelInterpolation.RgbSeparableOutcome | src/interpolate/core.py:103-114 | the colour call with the default interpolator succeeds iff the planes are at least 2 x 2 and ratio >= 1, else with plane 0's error |
| KernelInterpolation.RgbSeparablePlane | src/interpolate/core.py:103-114 | plane c of the colour result is the separable interpolation of channel c, of the upsampled shape |
| Interpolate2d.LinspaceUnit | src/interpolate/core.py:88-90 | linspace(1, n, n) is 1, 2, ..., n |
| Interpolate2d.MeshPoints | src/interpolate/core.py:72-73 | meshgrid plus ravel give |ys| * |xs| points |
| Interpolate2d.MeshPointAt | src/interpolate/core.py:72-73 | point a * |xs| + b is [ys[a], xs[b]] (row-major) |
| Interpolate2d.CreateGrid | src/interpolate/core.py:60-73 | as written: a negative count is an error, otherwise limits[0] * limits[1] points |
| Interpolate2d.CreateGridSwapsAxes | src/interpolate/core.py:70-71 | for a 2 x 3 image the grid as written has [1, 3] where pixel [0, 1]'s point [1, 2] belongs |
| Interpolate2d.CreateGridFixed | src/interpolate/core.py:60-73 | corrected: the same errors and size, each axis counting its own limit |
| Interpolate2d.CreateGridFixedAgreesOnSquare | src/interpolate/core.py:70-71 | with equal point counts the two grids agree |
| Interpolate2d.CreateGridFixedPixels | src/interpolate/core.py:88-90 | the pixel grid holds [i + 1, j + 1] at i * W + j |
| Interpolate2d.CreateGridFixedTarget | src/interpolate/core.py:91-93 | the interpolation grid holds [ys[a], xs[b]] at a * tw + b, rows over 1..H and columns over 1..W |
| Interpolate2d.TargetAxis | src/interpolate/core.py:87-93 | the target axes start at 1, end at the image size, and with ratio 1 are the pixel coordinates |
| Interpolate2d.ImageGridAt | classes/interpolation/src/interpolate.py:60-69 | the spaced grid has (ratio H)(ratio W) points, [a / ratio, b / ratio] at a * ratio W + b |
| Interpolate2d.ImageGridPixels | classes/interpolation/src/interpolate.py:83-85 | spacing 1 gives the 0-based pixel coordinates in row-major order |
| Interpolate2d.Accumulate | src/interpolate/core.py:95-98 | after the loop every grid point holds the sum over the pixels of value times kernel |
| Interpolate2d.PixelSampleAt | src/interpolate/core.py:88-96 | the sample of pixel (i, j) sits at [i + 1, j + 1] with that pixel's value |
| Interpolate2d.ImageInterpolate2d | src/interpolate/core.py:76-100 | a negative ratio on a non-empty image is an error; otherwise a (ratio H) x (ratio W) image whose cell (a, b) accumulates every pixel times the kernel of width 1 - eps at the (a, b)-th target grid point |
| Interpolate2d.FixedGridEntries | src/interpolate/core.py:93-98 | reshaping the accumulation over the target grid gives cell (a, b) the accumulation at [ys[a], xs[b]] |
| Interpolate2d.LatticeSampleAt | classes/interpolation/src/interpolate.py:83-91 | the sample of pixel (i, j) sits at [i, j] with that pixel's value |
| Interpolate2d.ImageInterpolate2dSpaced | classes/interpolation/src/interpolate.py:72-95 | ratio 0 is a division by zero, a negative ratio on a non-empty image a negative dimension; otherwise cell (a, b) accumulates every pixel times the width-1 kernel at [a / ratio, b / ratio] |
| Interpolate2d.SpacedInterpolate | classes/interpolation/src/interpolate.py:82-95 | the accumulation and reshape give the (ratio H) x (ratio W) image of accumulations |
| Interpolate2d.SpacedEntries | classes/interpolation/src/interpolate.py:86-93 | reshaped, the spaced accumulation holds at (a, b) the value at [a / ratio, b / ratio] |
| Interpolate2d.GridKernelAsWritten | classes/interpolation/src/kernels.py:46-50 | as written the 2D kernels index a third axis: a two-axis point list is an index error, a three-axis grid gets the kernel at every point |
| Interpolate2d.GridKernelRejectsPointList | classes/interpolation/src/interpolate.py:88-92 | the grid the 2D interpolator passes is a point list, so the kernels as written fail on the first pixel; point by point they give the weights the reshape needs |
| Interpolate2d.AccumulatedSelects | classes/interpolation/src/interpolate.py:91-93 | if the kernel weighs one sample 1 and all others 0, the accumulation is that sample's value |
| Interpolate2d.AccumulatedPermutation | src/interpolate/core.py:96-98 | the order in which pixels are added does not change the result |
| Interpolate2d.AccumulatedLinear | src/interpolate/core.py:96-98 | the accumulation is linear in the pixel values |
| Interpolate2d.PixelsPassThrough | src/interpolate/core.py:76-100 | with the bilinear kernel at width 1 the accumulation at pixel (i, j)'s point is that pixel |
| Interpolate2d.UnitRatioPassesThrough | src/interpolate/core.py:76-100 | at ratio 1 and eps 0 with the bilinear kernel, output [a, b] is pixel [a, b]: the image comes back unchanged |
| Interpolate2d.InterpolationGridSpacing | src/interpolate/core.py:91-93 | the interpolation grid steps by (H - 1) / (ratio H - 1), not 1 / ratio: for H = 3 and ratio 2 the rows are 1, 1.4, 1.8, 2.2, 2.6, 3 and none is pixel row 2 |
| Interpolate2d.SpacedGridHitsPixels | classes/interpolation/src/interpolate.py:66-95 | with the 1 / ratio step of the classes version, output [i ratio, j ratio] is pixel [i, j] for every ratio |
| Interpolate2d.ReshapeRavel | src/interpolate/core.py:96-98 | reshaping to the image's shape undoes `ravel`: the flat values go back to their own pixels |
| Interpolate2d.LatticePassThrough | classes/interpolation/src/interpolate.py:72-95 | the same on the 0-based lattice of the classes version |
| Dirac.CombAt | src/interpolate/dirac.py:24-28 | the comb holds y[k] at k * ratio and 0 at every other position |
| Dirac.FillComb | src/interpolate/dirac.py:24-28 | the strided slice assignment on the zero array produces the comb |
| Dirac.KernelAxis | src/interpolate/dirac.py:30 | the kernel axis runs from -1 to 1 and passes through 0 at the middle of an odd size |
| Dirac.DiracInterpolate | src/interpolate/dirac.py:7-33 | a non-int ratio, no samples, a negative count, a zero step, a y that does not broadcast, a negative or zero kernel size each give their error, and only these fail; the result is the 'same' convolution of the comb with the sampled kernel, max(ratio n, size) long |
| Dirac.InterpolationAxis | src/interpolate/dirac.py:23 | x_interpolate has ratio * n points from the first to the last measurement |
| Dirac.CombConvolution | src/interpolate/dirac.py:33 | convolving the comb places one kernel copy per sample: entry t is the sum of y[k] h[t - k ratio] |
| Dirac.DiracIsShiftedKernels | src/interpolate/dirac.py:32-33 | entry t of the result is that sum of shifted kernels, read at t plus the 'same' offset |

## Left out

- **Floating point.** All arithmetic is exact real arithmetic. Rounding is not modelled, including `np.allclose` in the test and the float result of `np.ceil(size / step)`. A count is exact: `np.linspace` and `np.arange` point counts, and `1 / ratio` as a spacing in `_image_grid`, where the model uses the ideal ratio * n points.
- **Division by a zero width.** In a kernel it yields inf/nan in numpy. The callables give weight 0 there, and the interpolation properties assume a non-zero width.
- **Sinc kernels (1D and 2D).** They need `np.sinc`, a transcendental function, and are not modelled.
- **The Gaussian density.** `scipy.stats.multivariate_normal(...).pdf` is not part of this model. `BlurKernels.GaussianBlurKernel` takes the density of a mesh distance as a positive parameter, and the peak property assumes it does not increase with distance.
- **Extents.** A result of three or more axes is `Numerics.NdArray.Tensor`, which records only how many axes it has; scalars, vectors and matrices are kept with their values. The 3D/4D arrays of `view_as_windows`, `as_strided`, `einsum` and `np.stack` are modelled by their index semantics. A colour image is its list of channel planes.
- **Aggregates.** `np.apply_over_axes` applies any `aggregate` one axis at a time: axis 2 (down each column of a window), then axis 3. `Downsampling.ReduceWindow` does the same for every aggregate, `np.median` included. Properties are proved for sum, max and median; a median is stated by what it satisfies (`Downsampling.IsMedian`), not computed by sorting.
- **Negative sizes.** Negative padding in `np.pad` (`src/conv.py`, `classes/convolution/src/conv.py`) and negative steps or strides are not modelled: padding, step and stride are natural numbers.
- **Duplicate copies.** Each is modelled once:
  - `src/interpolation/conv.py` and `classes/interpolation/src/conv.py` are the same text as `product_interpolate` / `image_interpolate1d`;
  - `src/interpolation/kernels.py` is the first half of `classes/interpolation/src/kernels.py`;
  - `classes/core/conv.py` reuses the 1D routines of `src/conv.py` (`CoreConv` calls them).
- **The `interpolate` argument of `rgb_image_interpolate`.** It is a parameter. The colour lemmas are proved for the default separable interpolator only, not for `image_interpolate2d`.
- Dirac.DiracInterpolate: `x_interpolate` is computed but never used by the source. The model computes it and proves only its endpoints (`Dirac.InterpolationAxis`).
- **Other context files.** `classes/compression`, `src/compression`, `classes/poisson`, `src/processing/poisson.py` and `src/interpolation/plots.py` are not part of this model.
- **Type checks.** An argument's Python type is not modelled except the `isinstance(ratio, int)` check of `dirac_interpolate`. Arrays are assumed numeric and of the documented number of axes.

## Findings

| source | as written | input that shows it | evidently intended | confidence | as-written member | corrected member |
|---|---|---|---|---|---|---|
| src/interpolate/core.py:16-25 | the loop rebinds the name `kernel` to the convolved row, so its second pass calls an array (TypeError); the same text is in classes/interpolation/src/interpolate.py:16-19 | x = [0, 1], y = [1, 1], x_interpolate = [0, 1], linear kernel: product_interpolate gives [1, 1], convolve_interpolate raises | each sample's row is y times the kernel callable centred on x, and the rows are summed, as in product_interpolate | not executed | KernelInterpolation.ConvolveInterpolateAsWritten | KernelInterpolation.ConvolveInterpolate |
| src/interpolate/core.py:70-71 | `create_grid` gives the column axis `limits[0]` points and the row axis `limits[1]` | a 2 x 3 image: point 1 of the pixel grid is [1, 3] instead of [1, 2] | limits[0] rows over 1..height and limits[1] columns over 1..width | not executed | Interpolate2d.CreateGrid | Interpolate2d.CreateGridFixed |
| src/interpolation/downsampling.py:12-15 | `np.apply_over_axes` reduces a window one axis at a time, so with `np.median` (which the docstring at line 13 offers) a cell is the median of the column medians | k = 3 on the image [[1, 1, 9], [1, 1, 9], [9, 9, 9]]: the cell is 1, while five of the nine pixels are 9 | each cell the median of all its block's pixels, as `np.median(windows, axis=(2, 3))` gives | medium, not executed | Downsampling.MedianOfColumnMedians | Downsampling.NonlinearDownsampleJoint |
| classes/interpolation/src/kernels.py:49 | the 2D kernels split their input with `x[:, :, 0]`, but both `image_interpolate2d` versions pass an (N, 2) list of points, so every call raises IndexError (also lines 56, 64, 73, 87) | any non-empty image and ratio >= 1 | the kernel evaluated at each point of the list, one weight per point | not executed | Interpolate2d.GridKernelAsWritten | Interpolate2d.KernelValues |

- **The create_grid finding.** Shown by `Interpolate2d.CreateGridSwapsAxes`. The two grids agree on square inputs (`Interpolate2d.CreateGridFixedAgreesOnSquare`). `Interpolate2d.ImageInterpolate2d` uses the corrected grid.
  - The pixels sit at [i + 1, j + 1], and the bilinear kernel of width 1 gives a pixel back at its own point (`Interpolate2d.PixelsPassThrough`).
  - The output lands on those points at ratio 1, where with eps 0 it is the image itself (`Interpolate2d.UnitRatioPassesThrough`).
  - For ratio > 1 the output points are spread evenly over 1..H and 1..W and in general miss the pixels (see the spacing note below).
- **The grid spacing.** The comment at src/interpolate/core.py:91-92 describes interpolation points 1 / ratio apart. The `np.linspace` call steps by (H - 1) / (ratio H - 1) instead (`Interpolate2d.InterpolationGridSpacing`). This is not a table row: the comment's last point, [H, W], is what the code produces, so the code may be what is meant, and the model keeps it. The classes version steps by 1 / ratio and hits every pixel (`Interpolate2d.SpacedGridHitsPixels`).
- **The median finding.** Shown by `Downsampling.MedianOfColumnMedians`. The corrected reduction gives each cell a median of its block (`Downsampling.JointMedianIsBlockMedian`). It keeps max pooling as it is (`Downsampling.JointMaxAgrees`).
- **The 2D kernel finding.** Shown by `Interpolate2d.GridKernelRejectsPointList`. `Interpolate2d.Accumulate` evaluates the kernel point by point.
- **The rebinding finding.** `KernelInterpolation.ConvolveInterpolateRebindingFails` runs both methods on two samples at their own points. The method as written returns the not-callable error. The corrected one returns the samples. In general the corrected form agrees with the product form (`KernelInterpolation.ConvolveInterpolateIsProduct`).
