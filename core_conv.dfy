/** The earlier, 1D-only revision of the convolution engine
    (classes/core/conv.py). Its `_full_conv` and `_valid_conv` are the loops
    of `_full_conv1d` and `_valid_conv1d` in src/conv.py line for line, so
    they call those methods; only the dispatcher differs. */
module CoreConv {
  import opened Numerics
  import opened ConvEngine

  /** `_full_conv(signal, kernel, step, padding)`. */
  method FullConv(signal: seq<real>, kernel: seq<real>, step: nat, padding: nat) returns (r: Result<seq<real>>)
    ensures r == FullConv1dSpec(signal, kernel, step, padding)
  {
    r := FullConv1d(signal, kernel, step, padding);
  }

  /** `_valid_conv(signal, kernel, step, padding)`. */
  method ValidConv(signal: seq<real>, kernel: seq<real>, step: nat, padding: nat) returns (r: Result<seq<real>>)
    ensures r == ValidConv1dSpec(signal, kernel, step, padding)
  {
    r := ValidConv1d(signal, kernel, step, padding);
  }

  /** `convolve(signal, kernel, step, padding, mode)`: dispatch on the mode only. */
  method Convolve(signal: seq<real>, kernel: seq<real>, step: nat, padding: nat, mode: string) returns (r: Result<seq<real>>)
    ensures mode == "full" ==> r == FullConv1dSpec(signal, kernel, step, padding)
    ensures mode == "valid" ==> r == ValidConv1dSpec(signal, kernel, step, padding)
    ensures mode != "full" && mode != "valid" ==> r == Err(UnsupportedMode)
  {
    if mode == "full" {
      r := FullConv(signal, kernel, step, padding);
    } else if mode == "valid" {
      r := ValidConv(signal, kernel, step, padding);
    } else {
      r := Err(UnsupportedMode);
    }
  }
}
