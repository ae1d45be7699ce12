/**
  Types and constants shared by the NAT test client model: the protocol and
  test selectors of nat_test.h, the run state of the test worker, and the
  verdict of a bounded wait that is fed a finite list of observations.
 */
module NatTypes {

  /** Milliseconds per second (S_TO_MS_MULT). */
  const S_TO_MS_MULT: int := 1000
  /** Size of the receive and send buffers (BUF_SIZE). */
  const BUF_SIZE: int := 512

  /** The transport a single search run uses. */
  datatype Protocol = Udp | Tcp

  /** The selector handed to the test worker (enum test_type). */
  datatype TestType = TestUdp | TestTcp | TestUdpAndTcp

  /** The process-wide run state of the test worker (enum test_state). */
  datatype TestState = Uninitialized | Idle | Running | Abort

  /**
    The verdict of a wait loop that runs until it decides. A finite list of
    observations may end before the loop decides: that is `Pending`.
   */
  datatype Verdict = Pending | Decided(code: int)

  datatype Option<+T> = None | Some(value: T)

  /**
    A character buffer read as a C string: the characters up to the first
    NUL, which is all that strstr and strtok look at.
   */
  function CString(s: string): (c: string)
    ensures c <= s
    ensures '\0' !in c
    ensures |c| < |s| ==> s[|c|] == '\0'
  {
    if |s| == 0 || s[0] == '\0' then [] else [s[0]] + CString(s[1..])
  }
}
