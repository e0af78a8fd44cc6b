/** The status of one model version: a state and an error code. */
module ModelVersionStatus {

  datatype State = START | LOADING | AVAILABLE | UNLOADING | END
  {
    /** The numbering of the states; comparisons between states use it. */
    function Rank(): nat {
      match this
      case START => 10
      case LOADING => 20
      case AVAILABLE => 30
      case UNLOADING => 40
      case END => 50
    }
  }

  datatype ErrorCode = OK | UNKNOWN | FAILED_PRECONDITION

  datatype Status = Status(state: State, errorCode: ErrorCode)
  {
    predicate WillEndUnloaded()
      ensures WillEndUnloaded() <==> state == UNLOADING || state == END
    {
      UNLOADING.Rank() <= state.Rank()
    }

    predicate IsFailedLoading()
      ensures IsFailedLoading() <==> this == Status(LOADING, UNKNOWN)
    {
      state == LOADING && errorCode == UNKNOWN
    }
  }

  const START_STATUS := Status(START, OK)
  const LOADING_STATUS := Status(LOADING, OK)
  const FAILED_STATUS := Status(LOADING, UNKNOWN)
  const AVAILABLE_STATUS := Status(AVAILABLE, OK)
  const UNLOADING_STATUS := Status(UNLOADING, OK)
  const END_STATUS := Status(END, OK)
}
