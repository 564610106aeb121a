/** The two reserved pseudo-tags shared by the estimator and the decoder. */
module Tags {
  /** The virtual predecessor of a sentence's first word. */
  const BeginSent: string := "Begin_Sent"
  /** The virtual successor of a sentence's last word. */
  const EndSent: string := "End_Sent"
}
