/** Return codes of lbfgs() (src/lbfgs.h). */
module LbfgsCodes {
  const LBFGS_SUCCESS := 0
  const LBFGS_STOP := 1
  const LBFGS_ALREADY_MINIMIZED := 2
  const LBFGSERR_INVALID_N := -1020
  const LBFGSERR_INVALID_EPSILON := -1017
  const LBFGSERR_INVALID_TESTPERIOD := -1016
  const LBFGSERR_INVALID_DELTA := -1015
  const LBFGSERR_INVALID_LINESEARCH := -1014
  const LBFGSERR_INVALID_MINSTEP := -1013
  const LBFGSERR_INVALID_MAXSTEP := -1012
  const LBFGSERR_INVALID_FTOL := -1011
  const LBFGSERR_INVALID_WOLFE := -1010
  const LBFGSERR_INVALID_GTOL := -1009
  const LBFGSERR_INVALID_XTOL := -1008
  const LBFGSERR_INVALID_MAXLINESEARCH := -1007
  const LBFGSERR_INVALID_ORTHANTWISE := -1006
  const LBFGSERR_INVALID_ORTHANTWISE_START := -1005
  const LBFGSERR_INVALID_ORTHANTWISE_END := -1004
  const LBFGSERR_OUTOFINTERVAL := -1003
  const LBFGSERR_INCORRECT_TMINMAX := -1002
  const LBFGSERR_ROUNDING_ERROR := -1001
  const LBFGSERR_MINIMUMSTEP := -1000
  const LBFGSERR_MAXIMUMSTEP := -999
  const LBFGSERR_MAXIMUMLINESEARCH := -998
  const LBFGSERR_MAXIMUMITERATION := -997
  const LBFGSERR_WIDTHTOOSMALL := -996
  const LBFGSERR_INVALIDPARAMETERS := -995
  const LBFGSERR_INCREASEGRADIENT := -994
}
