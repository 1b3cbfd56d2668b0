/** The constants of config.py that the modelled behaviour depends on. */
module Config {

  /** The product name searched for, verbatim and case-sensitively, in card titles. */
  const TargetGpu: string := "GeForce RTX 5090"

  /** Keywords of the keyword-driven subscription variant. */
  const SubscribeKeyword: string := "START"
  const UnsubscribeKeyword: string := "STOP"
}
