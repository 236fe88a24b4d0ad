/** Processing tokens of the buffer subsystem: 32-bit fields describing rate, device and
    concurrency, and the two predicates the chain relies on. */
module Tokens {

  type Token = bv32

  const SAMPLE_RATE: Token := 0x0
  const FRAME_RATE: Token := 0x2
  const CPU_PROCESS: Token := 0x4
  const GPU_PROCESS: Token := 0x8
  const SEQUENTIAL: Token := 0x10
  const PARALLEL: Token := 0x20

  const AUDIO_BACKEND: Token := SAMPLE_RATE | CPU_PROCESS | SEQUENTIAL
  const AUDIO_PARALLEL: Token := SAMPLE_RATE | GPU_PROCESS | PARALLEL
  const GRAPHICS_BACKEND: Token := FRAME_RATE | GPU_PROCESS | PARALLEL

  /** The C++ conversion of `token & bits` to bool. */
  predicate Has(token: Token, bits: Token) {
    token & bits != 0
  }

  /** Device clash and concurrency clash between a preferred and a current token, stated
      without the order of the tests in the code. */
  predicate DeviceClash(preferred: Token, current: Token) {
    || (Has(preferred, GPU_PROCESS) && Has(current, CPU_PROCESS))
    || (Has(preferred, CPU_PROCESS) && Has(current, GPU_PROCESS) && !Has(current, FRAME_RATE))
  }

  predicate ConcurrencyClash(preferred: Token, current: Token) {
    || (Has(preferred, SEQUENTIAL) && Has(current, PARALLEL))
    || (Has(preferred, PARALLEL) && Has(current, SEQUENTIAL))
  }

  /** The tests of `are_tokens_compatible`, in source order. SAMPLE_RATE is zero, so every
      test of that bit is false; the contract is what the function then decides. */
  predicate AreTokensCompatible(preferred: Token, current: Token): (r: bool)
    ensures r <==> if Has(preferred, FRAME_RATE) then Has(current, FRAME_RATE)
                   else !DeviceClash(preferred, current) && !ConcurrencyClash(preferred, current)
  {
    var preferredSample := Has(preferred, SAMPLE_RATE);
    var preferredFrame := Has(preferred, FRAME_RATE);
    var currentSample := Has(current, SAMPLE_RATE);
    var currentFrame := Has(current, FRAME_RATE);
    if preferredFrame && !currentFrame then false
    else if preferredSample && currentFrame then true
    else if (preferredSample && currentSample) || (preferredFrame && currentFrame) then true
    else
      var preferredCpu := Has(preferred, CPU_PROCESS);
      var preferredGpu := Has(preferred, GPU_PROCESS);
      var currentCpu := Has(current, CPU_PROCESS);
      var currentGpu := Has(current, GPU_PROCESS);
      if preferredSample && currentGpu then false
      else if preferredGpu && currentCpu then false
      else if preferredCpu && currentGpu && !currentFrame then false
      else
        var preferredSeq := Has(preferred, SEQUENTIAL);
        var preferredPar := Has(preferred, PARALLEL);
        var currentSeq := Has(current, SEQUENTIAL);
        var currentPar := Has(current, PARALLEL);
        if (preferredSeq && currentPar) || (preferredPar && currentSeq) then
          (preferredSample && currentSample) || (preferredFrame && currentFrame)
        else
          true
  }

  /** `validate_token` returns normally exactly for these tokens. */
  predicate IsValidToken(token: Token) {
    && !(Has(token, SAMPLE_RATE) && Has(token, FRAME_RATE))
    && !(Has(token, CPU_PROCESS) && Has(token, GPU_PROCESS))
    && !(Has(token, SEQUENTIAL) && Has(token, PARALLEL))
  }

  /** Accepted tokens are compatible with themselves; in full, a token is self-compatible
      exactly when it carries FRAME_RATE or is accepted. */
  lemma SelfCompatibleIff(token: Token)
    ensures AreTokensCompatible(token, token) <==> Has(token, FRAME_RATE) || IsValidToken(token)
  {
    assert !Has(token, SAMPLE_RATE);
  }

  /** The named backend tokens, all accepted. */
  lemma NamedTokens()
    ensures AUDIO_BACKEND == 0x14 && GRAPHICS_BACKEND == 0x2A && AUDIO_PARALLEL == 0x28
    ensures IsValidToken(AUDIO_BACKEND) && IsValidToken(GRAPHICS_BACKEND) && IsValidToken(AUDIO_PARALLEL)
  {
  }

  /** A token with both devices is rejected. */
  lemma BothDevices(token: Token)
    requires token & 0x4 != 0 && token & 0x8 != 0
    ensures !IsValidToken(token)
  {
  }

  /** So is one with both concurrencies. */
  lemma BothConcurrencies(token: Token)
    requires token & 0x10 != 0 && token & 0x20 != 0
    ensures !IsValidToken(token)
  {
  }

  /** Every other token is accepted: a rate bit never decides. */
  lemma Accepted(token: Token)
    requires token & 0x4 == 0 || token & 0x8 == 0
    requires token & 0x10 == 0 || token & 0x20 == 0
    ensures IsValidToken(token)
  {
    assert !Has(token, SAMPLE_RATE);
  }

  // The documented rules of `are_tokens_compatible`, with what the code decides instead. A
  // sample-rate token is one without FRAME_RATE.

  /** "FRAME_RATE requires FRAME_RATE" holds, as does "same rate" for frame rate. A sample-rate
      preference adapts to a frame-rate token, and accepts a sample-rate one, only where
      devices and concurrency do not clash. */
  lemma RateRules(preferred: Token, current: Token)
    ensures Has(preferred, FRAME_RATE) ==> (AreTokensCompatible(preferred, current) <==> Has(current, FRAME_RATE))
    ensures !Has(preferred, FRAME_RATE) && Has(current, FRAME_RATE) ==>
              (AreTokensCompatible(preferred, current)
               <==> (!(Has(preferred, GPU_PROCESS) && Has(current, CPU_PROCESS))
                     && !ConcurrencyClash(preferred, current)))
    ensures !AreTokensCompatible(AUDIO_BACKEND, GRAPHICS_BACKEND)
    ensures !Has(preferred, FRAME_RATE) && !Has(current, FRAME_RATE) ==>
              (AreTokensCompatible(preferred, current)
               <==> !DeviceClash(preferred, current) && !ConcurrencyClash(preferred, current))
    ensures !AreTokensCompatible(AUDIO_BACKEND, AUDIO_PARALLEL)
  {
    assert ConcurrencyClash(AUDIO_BACKEND, GRAPHICS_BACKEND) && ConcurrencyClash(AUDIO_BACKEND, AUDIO_PARALLEL);
    assert !Has(AUDIO_BACKEND, FRAME_RATE);
  }

  /** "Sample rate cannot execute on GPU" fails for every valid sample-rate GPU token, which is
      compatible with itself. "GPU cannot fall back to CPU" fails exactly between two
      frame-rate tokens. "CPU may use GPU only at frame rate" holds. */
  lemma DeviceRules(preferred: Token, current: Token)
    ensures !Has(current, FRAME_RATE) && Has(current, GPU_PROCESS) && IsValidToken(current)
        ==> AreTokensCompatible(current, current)
    ensures !Has(AUDIO_PARALLEL, FRAME_RATE) && AreTokensCompatible(AUDIO_PARALLEL, AUDIO_PARALLEL)
    ensures Has(preferred, GPU_PROCESS) && Has(current, CPU_PROCESS) ==>
              (AreTokensCompatible(preferred, current) <==> Has(preferred, FRAME_RATE) && Has(current, FRAME_RATE))
    ensures Has(preferred, CPU_PROCESS) && Has(current, GPU_PROCESS) && AreTokensCompatible(preferred, current) ==>
              Has(current, FRAME_RATE)
  {
    SelfCompatibleIff(current);
    SelfCompatibleIff(AUDIO_PARALLEL);
    assert !Has(AUDIO_PARALLEL, FRAME_RATE) && !Has(AUDIO_PARALLEL, CPU_PROCESS) && !Has(AUDIO_PARALLEL, SEQUENTIAL);
  }

  /** "Concurrency may differ where rates align" holds for frame rate only: tokens that clash
      are compatible exactly when both have FRAME_RATE. "Mismatched concurrency with
      incompatible rates is rejected" follows. "Same concurrency is always compatible" fails
      where a frame-rate preference meets another rate, and between devices that clash for a
      sample-rate one. */
  lemma ConcurrencyRules(preferred: Token, current: Token)
    ensures ConcurrencyClash(preferred, current) ==>
              (AreTokensCompatible(preferred, current) <==> Has(preferred, FRAME_RATE) && Has(current, FRAME_RATE))
    ensures !AreTokensCompatible(CPU_PROCESS | SEQUENTIAL, CPU_PROCESS | PARALLEL)
    ensures !ConcurrencyClash(preferred, current) ==>
              (AreTokensCompatible(preferred, current)
               <==> if Has(preferred, FRAME_RATE) then Has(current, FRAME_RATE) else !DeviceClash(preferred, current))
    ensures !AreTokensCompatible(CPU_PROCESS | SEQUENTIAL, GPU_PROCESS | SEQUENTIAL)
    ensures var frame, sample := FRAME_RATE | CPU_PROCESS | SEQUENTIAL, CPU_PROCESS | SEQUENTIAL;
            && IsValidToken(frame) && IsValidToken(sample)
            && !ConcurrencyClash(frame, sample) && !DeviceClash(frame, sample) && !AreTokensCompatible(frame, sample)
  {
    var cs, cp, gs := CPU_PROCESS | SEQUENTIAL, CPU_PROCESS | PARALLEL, GPU_PROCESS | SEQUENTIAL;
    assert !Has(cs, FRAME_RATE) && Has(cs, SEQUENTIAL) && Has(cp, PARALLEL) && Has(cs, CPU_PROCESS)
        && Has(gs, GPU_PROCESS);
    assert !Has(gs, FRAME_RATE);
  }
}
