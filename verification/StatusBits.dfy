/** The bits of the status word, of include/analyzer_types.h. */
module StatusBits {
  datatype Status =
    | ADC_RUNNING | SIGNAL_VALID | ADC_OVERRUN | BLOCK_GAP | DSP_DEADLINE | UART_BACKPRESSURE
    | NUMERIC_FAULT | WATCHDOG_RESET | FRAME_DROPPED | TEST_SIGNAL | DMA_STALE | SIGNAL_WEAK
    | ADC_CLIPPING | SIGNAL_FROZEN | FAULT_INJECTED

  /** What spectrum_health_check can add. */
  const QUALITY_BITS: set<Status> :=
    {SIGNAL_VALID, DSP_DEADLINE, NUMERIC_FAULT, SIGNAL_WEAK, ADC_CLIPPING, SIGNAL_FROZEN}
}
