/**
 * The registry of named writers in core/manager.go: a manager holding a map
 * from file name to writer, reached through a package-level variable that the
 * program never assigns.
 */
module Core {

  import opened Zxylog

  /** `LogManager`: the writers registered so far, by their `logFilename`. */
  class LogManager {
    var loggers: map<string, ZxyLog>

    /** `&LogManager{loggers: map[string]*ZxyLog{}}`. */
    constructor ()
      ensures loggers == map[]
    {
      loggers := map[];
    }

    /**
     * `GetLogger`: the receiver is ignored; the lookup goes to whatever
     * `getLogManager` returns, and a missing name gives nil.
     */
    method GetLogger(pkg: Package, loggerName: string) returns (l: ZxyLog?)
      ensures pkg.logManager == null ==> l == null
      ensures pkg.logManager != null ==>
                (l != null <==> loggerName in pkg.logManager.loggers)
                && (l != null ==> l == pkg.logManager.loggers[loggerName])
    {
      var manager := GetLogManager(pkg);
      l := if loggerName in manager.loggers then manager.loggers[loggerName] else null;
    }

    /**
     * `SetLogger`: the receiver is ignored; the writer is stored under its own
     * file name in whatever `getLogManager` returns, replacing an earlier
     * entry of that name and leaving the others alone.
     */
    method SetLogger(pkg: Package, logFile: ZxyLog)
      modifies if pkg.logManager == null then {} else {pkg.logManager}
      ensures pkg.logManager == old(pkg.logManager)
      ensures pkg.logManager != null ==>
                pkg.logManager.loggers == old(pkg.logManager.loggers)[logFile.logFilename := logFile]
    {
      var manager := GetLogManager(pkg);
      manager.loggers := manager.loggers[logFile.logFilename := logFile];
    }
  }

  /** The package-level state of `core`: the `logManager` variable, nil until assigned. */
  class Package {
    var logManager: LogManager?

    /** The zero value Go starts the program with. */
    constructor ()
      ensures logManager == null
    {
      logManager := null;
    }
  }

  /**
   * `getLogManager`: the global manager when there is one; otherwise a new,
   * empty manager that nothing else refers to.
   */
  method GetLogManager(pkg: Package) returns (manager: LogManager)
    ensures pkg.logManager == null ==> fresh(manager) && manager.loggers == map[]
    ensures pkg.logManager != null ==> manager == pkg.logManager
  {
    if pkg.logManager == null {
      manager := new LogManager();
    } else {
      manager := pkg.logManager;
    }
  }

  /** `NewLogManager`: whatever `getLogManager` returns. */
  method NewLogManager(pkg: Package) returns (manager: LogManager)
    ensures pkg.logManager == null ==> fresh(manager) && manager.loggers == map[]
    ensures pkg.logManager != null ==> manager == pkg.logManager
  {
    manager := GetLogManager(pkg);
  }

  /**
   * With the global variable nil, as the program leaves it, two requests for
   * "the global manager" give two different empty managers.
   */
  method ManagersNeverShared(pkg: Package) returns (first: LogManager, second: LogManager)
    requires pkg.logManager == null
    ensures first != second
    ensures first.loggers == map[] && second.loggers == map[]
  {
    first := NewLogManager(pkg);
    second := NewLogManager(pkg);
  }

  /**
   * With the global variable nil, a writer registered under its name cannot be
   * found again under that name: the registration went into a throwaway map.
   */
  method RegistrationIsLost(pkg: Package, receiver: LogManager, l: ZxyLog) returns (found: ZxyLog?)
    requires pkg.logManager == null
    ensures found == null
  {
    receiver.SetLogger(pkg, l);
    found := receiver.GetLogger(pkg, l.logFilename);
  }

  /** Were the global variable set, the same sequence would find the writer. */
  method RegistrationWithGlobal(pkg: Package, receiver: LogManager, l: ZxyLog) returns (found: ZxyLog?)
    requires pkg.logManager != null
    modifies pkg.logManager
    ensures found == l
  {
    receiver.SetLogger(pkg, l);
    found := receiver.GetLogger(pkg, l.logFilename);
  }
}
