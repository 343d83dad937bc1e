/**
 The comms-loss watchdog (atspi/safety.py) and the connection tracker that decides whose
 requests keep it quiet (atspi/server.py, `ConnectionTracker`).
 */
module Watchdog {
  import opened Prelude
  import opened Store
  import opened Adam

  const TIMEOUT_S := 30.0

  /** The identity of one TCP connection. */
  type Conn = nat

  datatype Watch = Watch(lastRead: real, released: bool, gone: bool)

  function FreshWatch(now: real): Watch { Watch(now, false, false) }

  function NoteRead(now: real): Watch { Watch(now, false, false) }

  /** The next tick will try to release the maintained relays. */
  predicate Due(w: Watch, now: real) {
    (now - w.lastRead > TIMEOUT_S || w.gone) && !w.released
  }

  /** A holding write that starts in the command band. */
  predicate IsCommandWrite(fc: FunctionCode, addr: Option<int>) {
    IsHoldingWrite(fc) && addr.Some? && IsCommandRegister(addr.value)
  }

  /** The commanding connection and the watchdog after a request. */
  function NoteRequest(commander: Option<Conn>, w: Watch, conn: Conn, fc: FunctionCode, addr: Option<int>, now: real)
    : (Option<Conn>, Watch)
  {
    if IsCommandWrite(fc, addr) then (Some(conn), NoteRead(now))
    else if commander.None? || commander == Some(conn) then (commander, NoteRead(now))
    else (commander, w)
  }

  function NoteDisconnect(commander: Option<Conn>, w: Watch, conn: Conn): (Option<Conn>, Watch) {
    if commander == Some(conn) then (None, w.(gone := true)) else (commander, w)
  }

  class SafetyWatchdog {
    const store: RegisterStore
    const driver: IOAdamDriver
    var lastRead: real
    var released: bool
    var commanderGone: bool

    ghost function View(): Watch
      reads this
    {
      Watch(lastRead, released, commanderGone)
    }

    constructor (store: RegisterStore, driver: IOAdamDriver, now: real)
      ensures this.store == store && this.driver == driver && View() == FreshWatch(now)
    {
      this.store, this.driver := store, driver;
      lastRead, released, commanderGone := now, false, false;
    }

    method NoteModbusRead(now: real)
      modifies this
      ensures View() == NoteRead(now)
    {
      lastRead := now;
      commanderGone := false;
      if released {
        released := false;
      }
    }

    method NoteCommanderLost()
      modifies this
      ensures View() == old(View()).(gone := true)
    {
      commanderGone := true;
    }

    /** One wake-up of the watchdog, undisturbed: when it is due it clears the read-back and
        drives both maintained relays off, and it latches only if both writes returned. */
    method Tick(link: Relay -> Link, now: real)
      modifies this, store, driver
      ensures Due(old(View()), now) <==> (now - old(lastRead) > 30.0 || old(commanderGone)) && !old(released)
      ensures !Due(old(View()), now) ==>
                View() == old(View()) && store.View() == old(store.View()) && driver.View() == old(driver.View())
      ensures Due(old(View()), now) ==>
                && store.View() == Release(old(store.View()))
                && (released, driver.View()) == Drive(old(driver.View()), RELEASE_MAINTAINED, link, now)
                && lastRead == old(lastRead) && commanderGone == old(commanderGone)
      ensures !old(released) && released ==> !driver.coils.inhibit && !driver.coils.force
      ensures Due(old(View()), now) && !released ==> Due(View(), now)
    {
      var elapsed := now - lastRead;
      if (elapsed > TIMEOUT_S || commanderGone) && !released {
        store.ReleaseMaintainedCommands();
        var ok := driver.DriveOutputs(RELEASE_MAINTAINED, link, now);
        if ok {
          released := true;
        }
      }
    }
  }

  class ConnectionTracker {
    const watchdog: SafetyWatchdog
    var commander: Option<Conn>

    constructor (watchdog: SafetyWatchdog)
      ensures this.watchdog == watchdog && commander == None
    {
      this.watchdog, commander := watchdog, None;
    }

    method OnRequest(conn: Conn, fc: FunctionCode, addr: Option<int>, now: real)
      modifies this, watchdog
      ensures (commander, watchdog.View()) == NoteRequest(old(commander), old(watchdog.View()), conn, fc, addr, now)
    {
      if IsCommandWrite(fc, addr) {
        if commander != Some(conn) {
          commander := Some(conn);
        }
        watchdog.NoteModbusRead(now);
      } else if commander.None? {
        watchdog.NoteModbusRead(now);
      } else if commander == Some(conn) {
        watchdog.NoteModbusRead(now);
      }
    }

    method OnDisconnect(conn: Conn)
      modifies this, watchdog
      ensures (commander, watchdog.View()) == NoteDisconnect(old(commander), old(watchdog.View()), conn)
    {
      if commander == Some(conn) {
        commander := None;
        watchdog.NoteCommanderLost();
      }
    }
  }
}
