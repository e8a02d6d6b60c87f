/** The conversation row of the chat assistant and its transitions. */
module ChatSessions {
  import opened Options

  datatype Status = Collecting | PendingConfirmation | Confirmed | Expired

  datatype Role = User | Assistant

  /** What a slot holds: the ticker list, a number, or anything else the assistant extracts. */
  datatype SlotValue = Names(names: seq<string>) | Amount(amount: real) | Other(text: string)

  type Slots = map<string, SlotValue>

  const FIELDS: set<string> := {
    "tickers", "budget", "min_return", "max_volatility", "max_weight_per_asset", "min_weight_per_asset",
    "sector_constraints", "num_assets_to_select", "lookback_days", "run_quantum", "objectives", "frontier"
  }

  /** The non-null fields of one extraction. */
  type Extraction = m: Slots | m.Keys <= FIELDS

  datatype Content =
    | Typed(text: string)
    | Welcome
    | Question(text: string)
    | Fallback(missing: seq<string>)
    | Summary(of: Slots)

  datatype Message = Message(role: Role, content: Content)

  datatype Row = Row(status: Status, messages: seq<Message>, slots: Option<Slots>, runId: Option<string>,
                     expiresAt: int)
  {
    predicate IsTerminal() {
      status.Confirmed? || status.Expired?
    }

    /** The stored slots, or none yet. */
    function Known(): Slots {
      match slots
      case None => map[]
      case Some(known) => known
    }

    function Saying(role: Role, content: Content): Row {
      this.(messages := messages + [Message(role, content)])
    }
  }

  class ChatSession {
    var status: Status
    var messages: seq<Message>
    var extractedSlots: Option<Slots>
    var runId: Option<string>
    var expiresAt: int

    function Columns(): Row
      reads this
    {
      Row(status, messages, extractedSlots, runId, expiresAt)
    }

    constructor (expires: int)
      ensures Columns() == Row(Collecting, [], None, None, expires)
    {
      status, messages, extractedSlots, runId, expiresAt := Collecting, [], None, None, expires;
    }

    /** The session as loaded from its row. */
    constructor Load(row: Row)
      ensures Columns() == row
    {
      status, messages, extractedSlots := row.status, row.messages, row.slots;
      runId, expiresAt := row.runId, row.expiresAt;
    }

    predicate IsExpired(now: int)
      reads this
    {
      now >= expiresAt
    }

    predicate IsTerminal()
      reads this
    {
      status.Confirmed? || status.Expired?
    }

    method AppendMessage(role: Role, content: Content)
      modifies this
      ensures Columns() == old(Columns()).Saying(role, content)
    {
      messages := messages + [Message(role, content)];
    }

    method MarkPendingConfirmation(slots: Slots)
      modifies this
      ensures Columns() == old(Columns()).(status := PendingConfirmation, slots := Some(slots))
    {
      status := PendingConfirmation;
      extractedSlots := Some(slots);
    }

    method MarkConfirmed(run: string)
      modifies this
      ensures Columns() == old(Columns()).(status := Confirmed, runId := Some(run))
    {
      status := Confirmed;
      runId := Some(run);
    }

    method MarkExpired()
      modifies this
      ensures Columns() == old(Columns()).(status := Expired)
    {
      status := Expired;
    }
  }
}
