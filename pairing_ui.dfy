/**
 * The pairing screen of the Android client: the form state kept by the screen
 * (PairDeviceScreen.kt) and the view-model that validates a request and drives the
 * repository (PairDeviceViewModel.kt).
 */
module PairingUi {
  import opened Wrappers
  import opened Text
  import opened DeviceModel
  import opened Repository
  import opened RemoteTree

  /** The state the screen observes; `PairSuccess` and `PairError` are the source's `Success` and `Error`. */
  datatype PairUiState = Idle | Loading | PairSuccess(deviceInfo: DeviceInfo) | PairError(message: string)

  const NotAuthenticated: string := "User not authenticated"
  const InvalidInput: string := "Invalid device ID or pairing code"
  const PairingFailed: string := "Pairing failed"
  /** The number of digits in a pairing code and of boxes that show it. */
  const CodeLength: nat := 6

  /** The request passes the view-model's own checks: a non-blank device id and a code of six characters. */
  predicate RequestWellFormed(deviceId: string, code: string) {
    !IsBlank(deviceId) && |code| == CodeLength
  }

  /** The state a finished repository call leaves: its device info, or its message, or the fallback. */
  function Settled(result: Result<DeviceInfo, Option<string>>): (s: PairUiState)
    ensures s.PairSuccess? <==> result.Success?
    ensures result.Failure? && result.error.None? ==> s == PairError(PairingFailed)
    ensures result.Failure? && result.error.Some? ==> s == PairError(result.error.value)
  {
    match result
    case Success(info) => PairSuccess(info)
    case Failure(message) => PairError(message.GetOr(PairingFailed))
  }

  /** Whether the Pair button is enabled. */
  predicate PairEnabled(deviceId: string, code: string, state: PairUiState) {
    !IsBlank(deviceId) && |code| == CodeLength && !state.Loading?
  }

  /** A request the button can send always passes the view-model's checks. */
  lemma EnabledRequestIsWellFormed(deviceId: string, code: string, state: PairUiState)
    requires PairEnabled(deviceId, code, state)
    ensures RequestWellFormed(deviceId, code)
  {
  }

  /** What box `index` shows: the digit at that position, or nothing past the end of the code. */
  function DigitBox(code: string, index: nat): (r: string)
    ensures |r| <= 1
    ensures index < |code| ==> r == [code[index]]
    ensures index >= |code| ==> r == ""
  {
    if index < |code| then [code[index]] else ""
  }

  /** The boxes from `from` to the sixth, read left to right. */
  function Boxes(code: string, from: nat): string
    decreases CodeLength - from
  {
    if from >= CodeLength then "" else DigitBox(code, from) + Boxes(code, from + 1)
  }

  /** Read left to right, the six boxes spell out the entered code, whatever its length up to six. */
  lemma {:induction false} BoxesSpellCode(code: string, from: nat)
    requires |code| <= CodeLength && from <= CodeLength
    ensures Boxes(code, from) == if from < |code| then code[from..] else ""
    decreases CodeLength - from
  {
    if from < CodeLength {
      BoxesSpellCode(code, from + 1);
      if from < |code| {
        assert code[from..] == [code[from]] + code[from + 1..];
      }
    }
  }

  /** The text fields of the pairing screen. */
  class PairForm {
    var deviceId: string
    var code: string

    /** What the input filters guarantee: a code of at most six digits and an id without lower-case letters. */
    ghost predicate Valid()
      reads this
    {
      |code| <= CodeLength && AllDigits(code) && forall i :: 0 <= i < |deviceId| ==> !('a' <= deviceId[i] <= 'z')
    }

    constructor()
      ensures Valid() && deviceId == "" && code == ""
    {
      deviceId := "";
      code := "";
    }

    /** The device-id field stores what was typed, uppercased. */
    method OnDeviceIdChange(typed: string)
      requires Valid()
      modifies this
      ensures Valid()
      ensures deviceId == Uppercase(typed) && code == old(code)
    {
      deviceId := Uppercase(typed);
    }

    /** The code field accepts a new value only when it is at most six digits; otherwise the old code stays. */
    method OnCodeChange(typed: string)
      requires Valid()
      modifies this
      ensures Valid()
      ensures deviceId == old(deviceId)
      ensures code == if |typed| <= CodeLength && AllDigits(typed) then typed else old(code)
    {
      if |typed| <= CodeLength && AllDigits(typed) {
        code := typed;
      }
    }
  }

  /** The pairing view-model: its observable state, the states it has passed through, and the repository it calls. */
  class PairDeviceViewModel {
    var uiState: PairUiState
    ghost var trace: seq<PairUiState>
    var repository: DeviceRepository

    constructor(repository0: DeviceRepository)
      ensures uiState == Idle && trace == [Idle] && repository == repository0
    {
      uiState := Idle;
      trace := [Idle];
      repository := repository0;
    }

    method SetState(s: PairUiState)
      modifies this
      ensures uiState == s && trace == old(trace) + [s] && repository == old(repository)
    {
      uiState := s;
      trace := trace + [s];
    }

    /**
     * `pairDevice`: no signed-in user, then a malformed request, are reported without
     * calling the repository; otherwise the state passes through Loading and settles on
     * the repository's outcome.
     */
    method PairDevice(userId: Option<string>, deviceId: string, code: string, now: int)
      modifies this, repository
      ensures repository == old(repository)
      ensures userId.None? ==> trace == old(trace) + [PairError(NotAuthenticated)]
      ensures userId.Some? && !RequestWellFormed(deviceId, code) ==>
        trace == old(trace) + [PairError(InvalidInput)]
      ensures userId.None? || !RequestWellFormed(deviceId, code) ==> repository.remote == old(repository.remote)
      ensures userId.Some? && RequestWellFormed(deviceId, code) ==>
        var r := Pairing.PairCheck(old(repository.remote), deviceId, code, now);
        trace == old(trace) + [Loading, Settled(if r.Success? then Success(r.value) else Failure(Some(r.error)))] &&
        repository.remote == (if r.Success? then ApplyAll(old(repository.remote), Pairing.PairWrites(old(repository.remote), userId.value, deviceId, code, now))
                              else old(repository.remote))
      ensures uiState == trace[|trace| - 1]
      ensures repository.cache == old(repository.cache)
    {
      if userId.None? {
        SetState(PairError(NotAuthenticated));
        return;
      }
      if IsBlank(deviceId) || |code| != CodeLength {
        SetState(PairError(InvalidInput));
        return;
      }
      SetState(Loading);
      var result := repository.PairDevice(userId.value, deviceId, code, now);
      SetState(Settled(if result.Success? then Success(result.value) else Failure(Some(result.error))));
    }

    /** `resetState`. */
    method ResetState()
      modifies this
      ensures uiState == Idle && trace == old(trace) + [Idle] && repository == old(repository)
    {
      SetState(Idle);
    }
  }
}
