/** The clipboard as its readers see it. Any other process may replace what it
    holds between any two reads, and every replacement moves the sequence
    number forward. */
module ClipboardWorld {
  import opened Wrappers

  datatype Format = UnicodeText | Html | Rtf | Bitmap | Files | MonitorExclusion | ViewerIgnore | HistoryDword
                  | CloudDword

  datatype Markers = Markers(monitorExclusion: bool, contentOwner: bool, historyExclusion: bool, cloudExclusion: bool)

  /** What one copy put on the clipboard. The bodies are what a successful read
      yields: decoded text, the parsed HTML document, the picture's PNG bytes. */
  datatype Generation = Generation(
    owner: Option<nat>, text: Option<string>, html: Option<string>, rtf: Option<string>, image: Option<string>,
    files: bool, legacyText: bool, privateFormat: bool,
    monitorExclusion: bool, viewerIgnore: bool, historyDword: Option<nat>, cloudDword: Option<nat>)
  {
    predicate Has(f: Format) {
      match f
      case UnicodeText => text.Some?
      case Html => html.Some?
      case Rtf => rtf.Some?
      case Bitmap => image.Some?
      case Files => files
      case MonitorExclusion => monitorExclusion
      case ViewerIgnore => viewerIgnore
      case HistoryDword => historyDword.Some?
      case CloudDword => cloudDword.Some?
    }

    function Body(f: Format): Option<string> {
      match f
      case UnicodeText => text
      case Html => html
      case Rtf => rtf
      case Bitmap => image
      case _ => None
    }

    predicate HasMarkerFormat() { monitorExclusion || viewerIgnore || historyDword.Some? || cloudDword.Some? }

    /** Nothing but the text placeholders Windows keeps for an empty text. */
    predicate OnlyPlaceholders() {
      html.None? && rtf.None? && image.None? && !files && !privateFormat && !HasMarkerFormat()
    }

    predicate Empty() { OnlyPlaceholders() && text.None? && !legacyText }

    predicate Supported() { text.Some? || html.Some? || rtf.Some? || image.Some? }

    function PrivacyMarkers(): Markers {
      Markers(monitorExclusion, viewerIgnore, historyDword == Some(0), cloudDword == Some(0))
    }
  }

  /** Which process a copy is attributed to; without an explicit owner it is
      whatever window is in the foreground. */
  datatype Identity = Identity(pid: nat, explicit: bool)

  datatype ReadFailure = Unresponsive | Failed

  class Clipboard {
    /** What the clipboard holds while its sequence number is the argument:
        every choice of other processes, for numbers that are ever reached. */
    const history: nat -> Generation
    /** Nobody else touches the clipboard and its owner answers every read. */
    const quiet: bool
    var at: nat

    constructor (history: nat -> Generation, quiet: bool, at: nat)
      ensures this.history == history && this.quiet == quiet && this.at == at
    {
      this.history := history;
      this.quiet := quiet;
      this.at := at;
    }

    function Now(): Generation
      reads this
    {
      history(at)
    }

    /** Another process may copy something before the next read happens. */
    method Interfere()
      modifies this
      ensures old(at) <= at
      ensures quiet ==> at == old(at)
    {
      var later: nat := *;
      if !quiet && at < later {
        at := later;
      }
    }

    method ReadSequence() returns (sequence: nat)
      modifies this
      ensures old(at) <= at == sequence
      ensures quiet ==> at == old(at)
    {
      Interfere();
      sequence := at;
    }

    method Advertises(f: Format) returns (available: bool)
      modifies this
      ensures old(at) <= at
      ensures quiet ==> at == old(at)
      ensures available == Now().Has(f)
    {
      Interfere();
      available := Now().Has(f);
    }

    method FormatCountIsZero() returns (zero: bool)
      modifies this
      ensures old(at) <= at
      ensures quiet ==> at == old(at)
      ensures zero == Now().Empty()
    {
      Interfere();
      zero := Now().Empty();
    }

    /** The clipboard may be held open by someone else, which reads as no. */
    method OnlyHasPlaceholders() returns (only: bool)
      modifies this
      ensures old(at) <= at
      ensures quiet ==> at == old(at)
      ensures only ==> Now().OnlyPlaceholders()
      ensures quiet ==> only == Now().OnlyPlaceholders()
    {
      Interfere();
      var refused: bool := *;
      only := Now().OnlyPlaceholders() && (quiet || !refused);
    }

    method Read(f: Format) returns (body: Option<string>)
      modifies this
      ensures old(at) <= at
      ensures quiet ==> at == old(at)
      ensures body.Some? ==> body == Now().Body(f)
      ensures quiet ==> body == Now().Body(f)
    {
      Interfere();
      var failed: bool := *;
      body := if failed && !quiet then None else Now().Body(f);
    }

    /** Whether a privacy DWORD opts out, `None` when it could not be read. */
    method ReadOptOut(f: Format) returns (optedOut: Option<bool>)
      requires f.HistoryDword? || f.CloudDword?
      modifies this
      ensures old(at) <= at
      ensures quiet ==> at == old(at) && optedOut.Some?
      ensures at == old(at) && optedOut.Some? ==>
        optedOut.value == ((if f.HistoryDword? then Now().historyDword else Now().cloudDword) == Some(0))
    {
      var available := Advertises(f);
      if !available {
        return Some(false);
      }
      Interfere();
      var failed: bool := *;
      var dword := if f.HistoryDword? then Now().historyDword else Now().cloudDword;
      if dword.None? || (failed && !quiet) {
        return None;
      }
      optedOut := Some(dword.value == 0);
    }

    method OwnerIdentity() returns (identity: Option<Identity>)
      modifies this
      ensures old(at) <= at
      ensures quiet ==> at == old(at)
      ensures identity.Some? && identity.value.explicit ==> Now().owner == Some(identity.value.pid)
      ensures identity.Some? && !identity.value.explicit ==> Now().owner.None?
      ensures quiet && Now().owner.Some? ==> identity == Some(Identity(Now().owner.value, true))
    {
      Interfere();
      var pid: nat := *;
      var gone: bool := *;
      if gone && !(quiet && Now().owner.Some?) {
        return None;
      }
      identity := if Now().owner.Some? then Some(Identity(Now().owner.value, true)) else Some(Identity(pid, false));
    }
  }
}
