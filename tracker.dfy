/** `GPSTracker.run`: before starting its processes the tracker checks for a
    client certificate and key; without them it bootstraps a new identity
    if it has bootstrap data, and otherwise gives up. The bootstrap exchange
    itself is network and file I/O and is not modelled. */
module Tracker {
  import Uploading

  /** A configuration key: missing, or present with its value. */
  datatype Entry = Missing | Given(value: string)

  /** The key is present and its value is non-empty. */
  predicate Filled(e: Entry)
  {
    e.Given? && e.value != ""
  }

  /** The BOOTSTRAP section of the configuration: absent (the command line
      never builds one), or its BOOTSTRAP_CODE and BOOTSTRAP_EMAIL keys,
      each of which may be missing. */
  datatype BootstrapSection = Absent | Present(code: Entry, email: Entry)

  /** What `run` does before `setup`. */
  datatype Startup =
    | Start                    // credentials present: set up the processes
    | BootstrapThenStart       // fetch credentials, then set up
    | Terminate                // log CRITICAL and return
    | BootstrapLookupFails     // a BOOTSTRAP lookup raises KeyError

  /** The test at line 304 reads BOOTSTRAP_EMAIL only when the code is
      non-empty, because `and` stops at the first false operand. */
  function StartupDecision(cert: string, key: string, certExists: bool, keyExists: bool,
                           bootstrap: BootstrapSection): (d: Startup)
    ensures d == Start <==> Uploading.CredentialsPresent(cert, key, certExists, keyExists)
    ensures d == BootstrapThenStart <==>
              && !Uploading.CredentialsPresent(cert, key, certExists, keyExists)
              && bootstrap.Present? && Filled(bootstrap.code) && Filled(bootstrap.email)
    ensures d == BootstrapLookupFails <==>
              && !Uploading.CredentialsPresent(cert, key, certExists, keyExists)
              && (|| bootstrap.Absent?
                  || bootstrap.code.Missing?
                  || (Filled(bootstrap.code) && bootstrap.email.Missing?))
  {
    if cert == "" || key == "" || !certExists || !keyExists then
      match bootstrap
      case Absent => BootstrapLookupFails
      case Present(code, email) =>
        match code
        case Missing => BootstrapLookupFails
        case Given(c) =>
          if c == "" then Terminate
          else
            match email
            case Missing => BootstrapLookupFails
            case Given(e) => if e != "" then BootstrapThenStart else Terminate
    else Start
  }

  /** A tracker that starts with its credentials in place sends them with
      every upload to an https endpoint, and with none to any other. */
  lemma StartedTrackerUsesItsCertificate(url: string, cert: string, key: string, sslVerify: bool,
                                         bootstrap: BootstrapSection)
    requires StartupDecision(cert, key, true, true, bootstrap) == Start
    ensures Uploading.IsHttps(url) ==>
              Uploading.ChooseTransmission(url, cert, key, true, true, sslVerify)
              == Uploading.WithClientCert(cert, key, sslVerify)
    ensures !Uploading.IsHttps(url) ==>
              Uploading.ChooseTransmission(url, cert, key, true, true, sslVerify) == Uploading.Plain
  {
  }

  /** Without credentials the tracker terminates exactly when the code is
      empty, whatever the e-mail key holds (even when it is missing), or
      when the code is filled and the e-mail is present but empty. */
  lemma TerminatesOnIncompleteBootstrapData(cert: string, key: string, certExists: bool, keyExists: bool,
                                           bootstrap: BootstrapSection)
    ensures StartupDecision(cert, key, certExists, keyExists, bootstrap) == Terminate <==>
              && !Uploading.CredentialsPresent(cert, key, certExists, keyExists)
              && bootstrap.Present? && bootstrap.code.Given?
              && (bootstrap.code.value == "" || (bootstrap.email.Given? && bootstrap.email.value == ""))
  {
  }

  /** With the configuration the command line builds (no BOOTSTRAP
      section), missing credentials end in the failed lookup rather than in
      bootstrapping or the CRITICAL notice. */
  lemma CommandLineConfigCannotBootstrap(cert: string, key: string, certExists: bool, keyExists: bool)
    requires !Uploading.CredentialsPresent(cert, key, certExists, keyExists)
    ensures StartupDecision(cert, key, certExists, keyExists, Absent) == BootstrapLookupFails
  {
  }
}
