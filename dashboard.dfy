/**
 * The dashboard view-model of the Android client (DashboardViewModel.kt): the buttons'
 * command mapping, the command status machine and the state kept from the device flow.
 */
module Dashboard {
  import opened Wrappers
  import opened DeviceModel
  import opened RemoteTree
  import opened Pairing
  import opened Repository

  /** The command status the screen shows; `Sent` is the source's `Success` object, renamed apart from `Result.Success`. */
  datatype CommandStatus = Idle | Sending | Sent | Error(message: string)

  datatype DashboardUiState = DashboardUiState(
    deviceData: Option<DeviceData>,
    isLoading: bool,
    error: Option<string>,
    commandStatus: CommandStatus)

  const CommandFailed: string := "Command failed"

  /** The state before the device flow has delivered anything. */
  function InitialState(): (s: DashboardUiState)
    ensures s.isLoading && s.deviceData.None? && s.error.None? && s.commandStatus == Idle
  {
    DashboardUiState(None, true, None, Idle)
  }

  /** What the user can ask the dryer to do from the dashboard. */
  datatype DryerAction = StartDrying | StopDrying | SetTemperature(temperature: real) | SetHumidity(humidity: real)

  /** The action name and value sent for each request; start and stop carry the default value 0. */
  function CommandFor(a: DryerAction): (c: (string, real))
    ensures a.StartDrying? ==> c == ("START", 0.0)
    ensures a.StopDrying? ==> c == ("STOP", 0.0)
    ensures a.SetTemperature? ==> c == ("SET_TEMP", a.temperature)
    ensures a.SetHumidity? ==> c == ("SET_HUMIDITY", a.humidity)
  {
    match a
    case StartDrying => ("START", 0.0)
    case StopDrying => ("STOP", 0.0)
    case SetTemperature(t) => ("SET_TEMP", t)
    case SetHumidity(h) => ("SET_HUMIDITY", h)
  }

  /** The request a command names can be recovered from it: no two requests send the same command. */
  function ActionOf(c: (string, real)): (a: Option<DryerAction>)
    ensures a.Some? ==> CommandFor(a.value) == c
  {
    if c.0 == "START" && c.1 == 0.0 then Some(StartDrying)
    else if c.0 == "STOP" && c.1 == 0.0 then Some(StopDrying)
    else if c.0 == "SET_TEMP" then Some(SetTemperature(c.1))
    else if c.0 == "SET_HUMIDITY" then Some(SetHumidity(c.1))
    else None
  }

  lemma CommandForRoundTrip(a: DryerAction)
    ensures ActionOf(CommandFor(a)) == Some(a)
  {
  }

  /** The status a finished send leaves: Sent, or the failure's message, or the fallback text. */
  function Finished(failure: Option<Option<string>>): (s: CommandStatus)
    ensures failure.None? <==> s == Sent
    ensures failure.Some? ==> s == Error(failure.value.GetOr(CommandFailed))
  {
    match failure
    case None => Sent
    case Some(message) => Error(message.GetOr(CommandFailed))
  }

  class DashboardViewModel {
    var uiState: DashboardUiState
    /** The command statuses shown so far, oldest first. */
    ghost var statusTrace: seq<CommandStatus>
    const deviceId: string
    var repository: DeviceRepository

    constructor(repository0: DeviceRepository, deviceId0: string)
      ensures uiState == InitialState() && statusTrace == [Idle]
      ensures deviceId == deviceId0 && repository == repository0
    {
      uiState := InitialState();
      statusTrace := [Idle];
      deviceId := deviceId0;
      repository := repository0;
    }

    /** A value from the device flow (which may be null) replaces the shown data and clears loading and error. */
    method OnDeviceData(data: Option<DeviceData>)
      modifies this
      ensures uiState == old(uiState).(deviceData := data, isLoading := false, error := None)
      ensures statusTrace == old(statusTrace) && repository == old(repository)
    {
      uiState := uiState.(deviceData := data, isLoading := false, error := None);
    }

    /** A failed device flow stops loading and shows the failure's message; the last data stays. */
    method OnDeviceError(message: Option<string>)
      modifies this
      ensures uiState == old(uiState).(isLoading := false, error := message)
      ensures statusTrace == old(statusTrace) && repository == old(repository)
    {
      uiState := uiState.(isLoading := false, error := message);
    }

    method SetStatus(s: CommandStatus)
      modifies this
      ensures uiState == old(uiState).(commandStatus := s)
      ensures statusTrace == old(statusTrace) + [s] && repository == old(repository)
    {
      uiState := uiState.(commandStatus := s);
      statusTrace := statusTrace + [s];
    }

    /**
     * `sendCommand` for one request: Sending, then the outcome of the write, then Idle
     * again after the pause. `failure` is None when the write succeeds and otherwise the
     * failure's message, which may be absent.
     */
    method Send(a: DryerAction, now: int, failure: Option<Option<string>>)
      modifies this, repository
      ensures statusTrace == old(statusTrace) + [Sending, Finished(failure), Idle]
      ensures uiState == old(uiState).(commandStatus := Idle)
      ensures repository == old(repository) && repository.cache == old(repository.cache)
      ensures failure.None? ==>
        repository.remote == Apply(old(repository.remote), SetCommands(deviceId, CommandRecord(CommandFor(a).0, CommandFor(a).1, now)))
      ensures failure.Some? ==> repository.remote == old(repository.remote)
    {
      SetStatus(Sending);
      var (action, value) := CommandFor(a);
      if failure.None? {
        repository.SendCommand(deviceId, action, value, now);
      }
      SetStatus(Finished(failure));
      SetStatus(Idle);
    }

    /** `resetCommandStatus`. */
    method ResetCommandStatus()
      modifies this
      ensures uiState == old(uiState).(commandStatus := Idle)
      ensures statusTrace == old(statusTrace) + [Idle] && repository == old(repository)
    {
      SetStatus(Idle);
    }
  }

  /** The command a successful send leaves on the device is the one its request maps to. */
  lemma SentCommandNamesAction(t: Tree, deviceId: string, a: DryerAction, now: int)
    ensures var after := Apply(t, SetCommands(deviceId, CommandRecord(CommandFor(a).0, CommandFor(a).1, now)));
      AsString(Device(after, deviceId).commands, "action") == Some(CommandFor(a).0) &&
      ActionOf((CommandFor(a).0, CommandFor(a).1)) == Some(a)
  {
  }
}
