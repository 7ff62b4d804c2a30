/** Sizes shared by all stages (codecParameters.h). */
module CodecParameters {
  const L_SUBFRAME := 40
  const L_FRAME := 80
  const L_PAST_EXCITATION := 154
}
