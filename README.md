# Service reminders — a Dafny model

This project models the service-reminder batch job of the ConComply fleet
maintenance tracker (`send_reminders.py`). The job looks at every piece of
equipment and finds its most recent service record. If that record's
next-service date is on or before a cutoff (today plus a reminder window,
7 days by default), the equipment goes on its owning admin's reminder list.
Each owner that has an account then gets one message. The message body is
a heading, an empty line, and one line per piece of equipment.

Modules:

- `Reminders` (`reminders.dfy`) covers `build_reminders`. It holds the
  cutoff computation, the latest-service query and the selection rule for
  one piece of equipment. It also holds the loop that groups items by owner
  into an insertion-ordered dictionary (`ReminderMap`), plus a reference
  description of the result owner by owner (`DueIndices`, `OwnerItems`) and
  lemmas tying the loop to it.
- `ReminderMail` (`reminder_mail.dfy`) covers the sending part of `main`.
  It holds the line format, the loop that builds a message body, the
  `"\n".join` with a split that reads it back, and the loop over owners
  that passes over owners without an account.
- `DecimalText` (`decimal_text.dfy`) covers Python's `str(int)`, used for
  the mileage column, with a contract saying the text reads back as the
  number.

Modelling choices:

- Dates are Python day ordinals (`date.toordinal()`). The last valid day is
  `MaxOrdinal` = 3652059. Python raises `OverflowError` when
  `today + timedelta(days)` leaves the date range; the model returns `None`
  there.
- The two database queries are input sequences: all equipment rows, in the
  order the query returns them, and all service rows. The account lookup
  is a map from user id to e-mail address.
- A service's date may be NULL, because the form stores `None` for an empty
  date (app.py:160). SQLite sorts NULL below every date, so under
  `ORDER BY date DESC` it comes last (`NotLaterThan`).
- The query may break ties between equal dates either way.
  `IsLatestChoice` says "a service with a maximal date". `BuildReminders`
  returns, as a ghost, the service it used for each piece of equipment, and
  promises only that each one satisfies `IsLatestChoice`. `Latest` is one
  answer that meets that contract. `TieBreakIrrelevant` shows when the
  tie-break cannot change the result.
- "Today", the parsed `REMINDER_DAYS` value (`None` when unset) and the
  printed form of a date are parameters.

## Model

| member | source | states |
|---|---|---|
| `Reminders.Cutoff` | send_reminders.py:37-38 | The cutoff is a valid date exactly when today plus the window is one; it is today plus the window, and the window is 7 days when unset |
| `Reminders.Latest` | send_reminders.py:43-47 | The latest-service query answers nothing exactly when the equipment has no service, and otherwise a service of that equipment with a maximal date, NULL dates ranking lowest |
| `Reminders.LatestDateUnique` | send_reminders.py:43-47 | Any two admissible answers of the latest-service query agree on whether a service exists and on its date |
| `Reminders.Due` | send_reminders.py:48-58 | One piece of equipment yields an item iff its latest service exists, has a next-service date, and that date is not after the cutoff; the item carries the equipment's code, type and mileage and that date |
| `Reminders.DueIndices` | send_reminders.py:41-51 | The positions of an owner's equipment that yield an item are strictly increasing and are exactly the positions where the equipment belongs to the owner and is due |
| `Reminders.OwnerItems` | send_reminders.py:52-59 | An owner's items are, one per due position and in that order, the items those pieces of equipment yield |
| `Reminders.Record` | send_reminders.py:52 | `setdefault(owner, []).append(item)` keeps the dictionary well-formed, appends the item to the owner's list (creating it if absent, as a new last key) and leaves every other key unchanged |
| `Reminders.Collect` | send_reminders.py:41-59 | The dictionary after the loop has visited a prefix of the equipment is well-formed (no owner twice, keys exactly the listed owners), no owner holds an empty list, and every item's next-service date is on or before the cutoff |
| `Reminders.BuildReminders` | send_reminders.py:36-61 | Fails exactly when the cutoff overflows; otherwise uses an admissible latest service for every piece of equipment and returns the dictionary the selection rule defines over them |
| `Reminders.CollectGroupsByOwner` | send_reminders.py:41-59 | The result is a well-formed dictionary whose keys are exactly the owners with at least one due piece of equipment, each holding exactly its items in equipment order |
| `Reminders.CollectOwnerOrder` | send_reminders.py:52 | The dictionary's keys come in the order of each owner's first due piece of equipment (Python dict insertion order) |
| `Reminders.DueEquipmentReminded` | send_reminders.py:48-59 | Every piece of equipment whose latest service is due by the cutoff, overdue ones included, has its item in its own owner's list |
| `Reminders.NoServiceNoItem` | send_reminders.py:43-49 | Equipment with no service rows yields no item for any owner |
| `Reminders.OnlyLatestServiceCounts` | send_reminders.py:43-49 | When the strictly most recent service has no next-service date, the equipment yields no item, even if an older service has a date inside the window |
| `Reminders.TieBreakIrrelevant` | send_reminders.py:43-51 | If equally dated services of one piece of equipment agree on their next-service date, any two admissible choices of latest services give the same dictionary |
| `DecimalText.DigitsRoundTrip` | send_reminders.py:81 | The digits written for a natural number are non-empty, have no leading zero unless the number is 0, and read back as the number |
| `DecimalText.IntText` | send_reminders.py:81 | `str(n)` is non-empty, starts with `-` exactly for negative n and otherwise with a digit, is digits after that with no leading zero unless n is 0, and reads back as n |
| `ReminderMail.MileageText` | send_reminders.py:80-81 | The mileage column reads `N/A` exactly when the mileage is unset; a set mileage, 0 included, prints as `str(mileage)`; the column contains no newline |
| `ReminderMail.ItemLine` | send_reminders.py:80-81 | The line of an item contains no newline when its code, type and printed date contain none (the mileage column never does) |
| `ReminderMail.Join` | send_reminders.py:82 | Splitting `"\n".join(lines)` at newlines gives back the lines, provided there is at least one and none of them contains a newline |
| `ReminderMail.ComposeBody` | send_reminders.py:75-82 | The loop builds the body as the join of the heading, an empty line and one line per item in list order |
| `ReminderMail.BodyReadsBack` | send_reminders.py:75-82 | When no item's code, type or printed date contains a newline, the body read back line by line has the heading, then an empty line, then at position j+2 the line of item j, and no other lines |
| `ReminderMail.KnownOwners` | send_reminders.py:71-74 | The owners that get a message are exactly the dictionary's owners that have an account; when the dictionary's owners are distinct, these are too, and an owner earlier among them is earlier in the dictionary |
| `ReminderMail.MessageFor` | send_reminders.py:75-83 | The message for an owner goes to that owner's address under the fixed subject; when no item's code, type or printed date contains a newline, its body, split at newlines, is the heading, an empty line and the owner's item lines |
| `ReminderMail.SendReminders` | send_reminders.py:66-84 | The messages sent are, in dictionary order, one per owner with an account: that owner's address, the fixed subject, and the composed body; an empty dictionary sends nothing |
| `ReminderMail.UnknownOwnerSkipped` | send_reminders.py:72-74 | An owner without an account changes nothing: the owners that get a message are the same as when that owner is removed |
| `ReminderMail.RunReminderJob` | send_reminders.py:64-84 | The whole job fails exactly when the cutoff overflows; otherwise it sends the messages of the well-formed dictionary that the selection rule defines over admissible latest services |

## Left out

- `send_email` (send_reminders.py:11-33) is not modelled: it is SMTP delivery configured from environment variables. The model's result is the list of (recipient, subject, body) messages in sending order.
- The console output (send_reminders.py:68 and :84) is not modelled.
- `ReminderMail.SendReminders` does not model a failed delivery: in the source, an exception from `send_email` ends the loop early.
- `datetime.utcnow()` and the `os.environ` read (send_reminders.py:37-38) become the parameters `today` and `days`. The `ValueError` that `int()` raises for a non-numeric `REMINDER_DAYS` is not modelled.
- The printed form of a date (`str(date)`, ISO `YYYY-MM-DD`) is a parameter `dateText`, so the calendar conversion from day number to year, month and day is not modelled.
- `Reminders.Latest` always breaks ties between equal dates in favour of the earlier row. The order SQLite actually returns for equal dates is not modelled, so `BuildReminders` promises only `IsLatestChoice`.
- Equipment code and type are taken to be strings, and the owning admin id to be set. A NULL code or type would print as `None`; this is not modelled.
- `app.app_context()` and the ORM session are not modelled.
- Nothing in app.py, models.py, utils.py, create_db.py, add_attachment_tables.py, migrate_features.py or static/app.js is modelled. These files hold web routes, schema declarations, migrations, password hashing and browser code. None of them is part of the reminder job.
- `ReminderMail.BodyReadsBack` and `ReminderMail.MessageFor` promise the line-by-line reading of a body only when no item's code, type or printed date contains a newline. The web form stores the code without checking it (app.py:93), and a code with a newline in it splits the sent body into extra lines; the model does not describe those bodies line by line.
