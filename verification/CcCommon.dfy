/** Constants that the congestion controllers of picoquic share. */
module CcCommon {
  const CWIN_INITIAL: nat := 15360
  const CWIN_MINIMUM: nat := 3072
}
