# Lunch reminder bot: verified model of its decision core

`main.py` is a small Flask service. It reminds Slack users each evening to order tomorrow's lunch
from the LunchDrive vendor page. It lets them record what they ordered, and reminds them of
it the next morning. This project models in Dafny the parts of `main.py` that make decisions,
and proves properties of them:

- **`get_daily_menu`** (module `Menu`):
  - finds the first heading whose text contains tomorrow's date string (`%-d.%-m.%Y`) on
    the already parsed vendor page. `main.py` tests for a plain substring, which also accepts
    other days (see "## Findings"). The header search takes the test as a parameter:
    `Substring` is `main.py` as written and `WholeDate` the corrected test, which accepts the
    date string only where it does not follow a digit or a dot. Every outcome below is
    proved for both; `TestsAgree` shows they differ only on pages where tomorrow's string
    follows a digit or a dot;
  - walks the rows of the menu table under it;
  - keeps the names of three-cell rows whose price text, with `Kč` removed and stripped,
    reads through `int()` as the target price;
  - otherwise reports one of four distinct error outcomes, each with its Czech message.
- **Dates** (module `Dates`):
  - `today + timedelta(days=1)`, with month, year and leap-day rollover, and the
    OverflowError after 31 December 9999;
  - `weekday()`;
  - the two `strftime` layouts the bot uses.
- **Python string and number primitives** (modules `Text`, `Decimal`): `str.strip()`,
  `str.replace(p, '')`, the substring test, `int()` on decimal text, and `str(int)`.
- **The `orders` collection** (module `Orders`): the class `OrderLedger` holds a map from
  document id `"{user}_{YYYY-MM-DD}"` to order.
  - `save_user_order` is an in-place overwrite of one document.
  - `get_orders_for_date` is a filter loop.
- **The jobs and Slack actions** (module `Jobs`): the daily and morning reminder jobs with
  their weekday gates, the "I've ordered" picker, and the modal submission. Messages go to
  an outbox: each `chat.postMessage` call becomes one payload appended, in order.

The clock is a `today` parameter, read once per invocation. The download is a `Fetch` value.
The subscriber list is a sequence argument.

## Model

| member | source | states |
|---|---|---|
| Decimal.ParseInt | main.py:122 | `int()` succeeds exactly on an optional sign followed by one or more ASCII digits; the value carries the sign |
| Decimal.IntRoundTrip | main.py:122 | reading back the decimal text of any integer gives that integer |
| Decimal.IntToString | main.py:129 | `str(i)` is an integer literal, with a minus sign exactly for negative numbers; IntRoundTrip proves that reading it back gives `i` |
| Decimal.IntToStringInjective | main.py:129 | different integers have different decimal texts |
| Text.Strip | main.py:121 | `strip()` returns an infix of the input with only whitespace (Python's `isspace` set) cut from either side; the result neither starts nor ends with whitespace |
| Text.HasSubstring | main.py:104 | the computed substring test holds exactly when the needle occurs at some position of the text |
| Text.RemoveAll | main.py:121 | `replace(p, '')` never lengthens the text; RemoveAllKeepsPrefix and PriceWithCurrency state what it keeps |
| Text.RemoveAllKeepsPrefix | main.py:121 | `replace('Kč', '')` leaves unchanged a prefix that cannot start an occurrence of `Kč` |
| Text.StripTrailingSpace | main.py:121 | stripping text that already has no outer whitespace, followed by whitespace, gives the text back |
| Dates.AddDay | main.py:100 | the next day is a valid date; it is missing (OverflowError) exactly for 31 December 9999 |
| Dates.AddDayOrdinal | main.py:100 | the next day's ordinal is one more than today's, across month ends, year ends and 29 February |
| Dates.OrdinalInjective | main.py:100 | distinct valid dates have distinct ordinals, so the next day is unique |
| Dates.Weekday | main.py:227 | `weekday()` lies in 0..6; WeekdayAnchor and WeekdayNext pin its value to the calendar |
| Dates.WeekdayAnchor | main.py:227 | 1 January 2024, a Monday, has weekday 0; with WeekdayNext this fixes the weekday of every date |
| Dates.WeekdayNext | main.py:227 | the weekday advances by one from today to tomorrow, Sunday wrapping to Monday |
| Dates.IsoDate | main.py:74 | `%Y-%m-%d` is always ten characters long |
| Dates.IsoRoundTrip | main.py:74 | `ParseIsoDate`, a reference inverse written for the proof (`main.py` never parses these strings), reads every formatted order date back as that date |
| Dates.IsoDateInjective | main.py:78 | different dates give different order-date strings, hence different document ids |
| Dates.HeaderDate | main.py:101 | `%-d.%-m.%Y` is 8 to 10 characters of digits and dots, starting with an unpadded non-zero day digit; HeaderDateParts fixes the layout as the day followed by `.month.year`, and HeaderDateInjective and HeaderDatePrefixFree prove it names its date |
| Dates.HeaderDatePrefixFree | main.py:101 | no header string is a proper prefix of another's: texts that start with the header strings of two dates agree on the date |
| Dates.HeaderDateInjective | main.py:101 | different dates give different `%-d.%-m.%Y` header strings |
| Menu.ErrorTextInjective | main.py:106-113 | the four error outcomes give pairwise different messages, and the no-dish message names its price |
| Menu.ErrorText | main.py:106-135 | each error outcome has a non-empty message, and the message starts with the no-dish prefix exactly for the no-dish error; ErrorTextInjective proves the four are distinct |
| Menu.PriceWithCurrency | main.py:120-124 | a price cell written as a number, optional whitespace and `Kč` reads as that number |
| Menu.ParsePrice | main.py:121-122 | `int(price_text.replace('Kč', '').strip())`, None where that raises; PriceNeedsDigit and PriceWithCurrency state what it reads |
| Menu.PriceNeedsDigit | main.py:120-126 | a price is read only from a cell holding a digit, so a cell without one is skipped, not counted as 0 |
| Menu.CollectDishes | main.py:111-126 | the row loop returns exactly the names of the qualifying rows, in document order |
| Menu.Qualifies | main.py:117-123 | the row test: exactly three cells, and the third reads as the target price; DishesSkipRow and DishesAreQualifyingNames prove the dish list is made of exactly these rows |
| Menu.Dishes | main.py:115-124 | the dish list of a table has at most one entry per row; CollectDishes, DishesAppend and DishesAreQualifyingNames give its contents |
| Menu.DishesAppend | main.py:115-124 | the dish lists of consecutive parts of a table concatenate, so each row contributes independently and keeps its place |
| Menu.DishesSkipRow | main.py:116-126 | a row with the wrong cell count, an unreadable price or another price leaves the dish list unchanged |
| Menu.QualifyingRows | main.py:117-123 | lists, in increasing order, only rows with three cells whose price equals the target |
| Menu.QualifyingRowsComplete | main.py:117-123 | every qualifying row is listed |
| Menu.DishesAreQualifyingNames | main.py:115-124 | the dish list is cell 1 of each qualifying row, one entry per row with duplicates kept, in row order |
| Menu.SubstringMatchesOtherDay | main.py:104 | as written, the substring test accepts the header of day 10t+d (same month and year, t from 1 to 3) when tomorrow is day d from 1 to 9; the corrected test rejects it |
| Menu.HeadingContains | main.py:104 | the test as written: the heading has non-empty text in which the date string occurs; SubstringMatchesOtherDay shows it accepts other days and WholeDateIsSubstring that it accepts every whole-date match |
| Menu.WholeDateIsSubstring | main.py:104 | every heading the corrected test accepts is also accepted by the substring test |
| Menu.HeadingMatchesExactlyItsDate | main.py:104 | corrected test: a heading made of its date between texts without digits or dots matches tomorrow's date string exactly when its date is tomorrow |
| Menu.FindHeading | main.py:104 | returns the first heading that passes the chosen test (`Substring`: the text contains the date string, as `main.py`; `WholeDate`: it holds it as a whole date), or none when no heading does |
| Menu.DailyMenu | main.py:128-131 | a successful menu is never an empty list |
| Menu.GetDailyMenu | main.py:89-135 | the step-by-step scrape, row loop included, returns the outcome `DailyMenu` defines for the same header test |
| Menu.MenuIsTomorrows | main.py:100-110 | for either test, a dish list comes from the first heading passing the test for the date string of the day one ordinal after today; it is exactly the qualifying rows of that heading's table |
| Menu.NotYetAvailableExactly | main.py:104-108 | for either test, the "not yet available" outcome occurs exactly when the page was fetched and no heading passes the test for tomorrow's date string (with `Substring`: no heading text contains it) |
| Menu.FailureExactly | main.py:133-135 | for either test, the generic error occurs exactly on a failed download or the date overflow |
| Menu.FirstMatchDecides | main.py:104-131 | for either test, once tomorrow's first passing heading is fixed, a missing table gives "table not found", a table without a qualifying row gives the no-dish error for the price, and otherwise the result is exactly the qualifying dishes |
| Menu.SearchesAgree | main.py:104 | where every heading containing the date string also holds it as a whole date, the substring search and the whole-date search pick the same heading |
| Menu.TestsAgree | main.py:89-135 | `main.py`'s outcome and the corrected one are equal on every page where no heading holds tomorrow's date string only right after a digit or a dot |
| Menu.SubstringServesOtherDaysMenu | main.py:89-135 | when tomorrow is day d from 1 to 9 and the page's only heading is day 10t+d of that month, `main.py`'s search serves that heading's dishes (or its no-dish error) while the corrected search reports "not yet available" |
| Menu.ExampleTable | main.py:115-124 | with a 120 Kč row and a 125 Kč row, only the 125 Kč dish is offered at 125 |
| Menu.BuildOrderModalView | main.py:180-205 | one picker option per dish, in menu order, each showing and submitting the dish name, with callback id `order_submission` |
| Menu.ModalValuesAreMenu | main.py:182 | the values the picker can submit are exactly the menu |
| Orders.DocId | main.py:78 | the document id `"{user}_{YYYY-MM-DD}"`; DocIdInjective proves it determines its user and date |
| Orders.NewOrder | main.py:71-76 | the stored record carries the user and meal, and its two date fields read back as the order date and today; SaveThenQuerySameDate states what a saved record does to the day's orders |
| Orders.DocIdInjective | main.py:78 | with fixed-width dates, a document id determines its user and its date |
| Orders.OneOrderPerUserAndDate | main.py:77-79 | in a collection kept by `save_user_order`, a user has at most one order per date |
| Orders.SaveThenQuerySameDate | main.py:69-85 | after a save, the orders for that date are the new order plus the other users' orders; the user's earlier choice is gone |
| Orders.SaveThenQueryOtherDate | main.py:69-85 | a save leaves the orders for every other date unchanged |
| Orders.OrderLedger.SaveUserOrder | main.py:69-79 | writes exactly one document under the user and date id, overwriting any earlier one, and keeps the collection well keyed; every other document is unchanged |
| Orders.OrderLedger.GetOrdersForDate | main.py:81-85 | returns each order whose date field equals the target date, once each, and nothing else |
| Jobs.IsMorningReminderDay | main.py:262 | the morning gate allows exactly weekdays 0 to 4, Monday to Friday |
| Jobs.IsDailyReminderDay | main.py:227 | the evening gate allows exactly the weekdays whose next weekday the morning gate allows |
| Jobs.GatesOnCalendarWeek | main.py:227-264 | on the week of Monday 1 January 2024, the evening gate allows Sunday to Thursday and the morning gate Monday to Friday |
| Jobs.DailyReminderOnEveOfWorkday | main.py:227-264 | the evening reminder runs exactly on the days before a day the morning reminder runs |
| Jobs.TriggerDailyReminder | main.py:219-251 | status 200 whenever the document store answers. Friday and Saturday are a no-op. With either header test, a menu error is returned as the response with nothing sent. Otherwise each subscribed user gets exactly one reminder with the dish list, in the order of the subscriber list, and the body says whether anyone was sent one |
| Jobs.MorningMessagesAreOwed | main.py:271-278 | the loop sends one message per order with a non-empty user and meal, naming that meal, and nothing else |
| Jobs.MorningMessages | main.py:271-278 | the loop sends at most one message per order, each a text message to a non-empty channel; MorningMessagesAreOwed gives exactly which |
| Jobs.MorningMessagesDistinct | main.py:271-278 | orders of distinct users produce messages on distinct channels |
| Jobs.TriggerMorningReminder | main.py:253-281 | status 200 whenever the document store answers. Saturday and Sunday are a no-op. Otherwise the messages sent are exactly those owed for today's orders, no user gets two, and the body says whether there were orders |
| Jobs.SubmitOrder | main.py:292-309 | saves the chosen meal for tomorrow under the user's id, overwriting any earlier choice, and sends one confirmation naming the meal, answering 200 whenever the document store answers; past 31 December 9999 it answers 500 and saves nothing |
| Jobs.OpenOrderModal | main.py:317-334 | for either header test, if the menu cannot be read, sends one apology and opens no picker; otherwise opens a picker whose values are exactly tomorrow's dishes |
| Jobs.SubmittedOrderRemindedNextMorning | main.py:266-303 | a meal submitted today is owed a morning message tomorrow; it is the only message owed to that user and it names the new meal |

## Left out

- HTML download and parsing (`requests.get`, BeautifulSoup).
  - The page is given as its `h2` headings in document order.
  - Each heading carries its `.string` text and the `table-menu` sibling table, if any.
  - A row is its list of stripped `td` texts.
  - Any download or HTTP error is the single value `FetchFailed`.
- Slack Web API calls (`send_slack_message`, `views.open`). They become outbox entries and a returned view.
  - Their responses are not modelled; `send_slack_message` swallows every error, so a send never stops a loop.
- Jobs.TriggerDailyReminder: always answers 200. A failed `get_all_subscribed_users()` read (main.py:238, outside any `try`) ends the request with HTTP 500; the subscriber list is an argument that always arrives, so that failure is not modelled.
- Jobs.SubmitOrder: answers 200 whenever tomorrow exists. A failed `save_user_order` write (main.py:303, outside any `try`) ends the request with HTTP 500; the store is a map that always accepts the write, so that failure is not modelled.
- Jobs.OpenOrderModal: always answers 200. The `views.open` request (main.py:329-333) is outside any `try`, so a network error there ends the request with the web framework's HTTP 500; that failure is not modelled.
- The reminder's Block Kit layout, random emoji and random image. A reminder payload carries only its dish list.
- Slack request signature checking, the OAuth install flow, the subscribe and admin pages, `__main__`, and environment loading. `TARGET_PRICE` is a parameter.
- The `users` collection (`add_user`, `remove_user`, `get_all_subscribed_users`) and the unsubscribe button. The daily job takes the subscriber list as a sequence.
- `datetime.now()`. Each invocation takes one `today` date.
  - The source reads the clock again inside `get_daily_menu` and `save_user_order`; runs that cross midnight are not modelled.
- `firestore.SERVER_TIMESTAMP`, and the order in which the store returns query results.
- Orders.OrderLedger.GetOrdersForDate: states which orders are returned, each once, but not their order.
- Jobs.TriggerMorningReminder: states the set of messages sent, but not their order, since that follows the store's result order. A failed `get_orders_for_date(today)` read (main.py:266, outside any `try`) ends the request with HTTP 500; the store is a map that always answers, so that failure is not modelled.
- Decimal.ParseInt: accepts only an optional sign and ASCII digits. Python's `int()` also accepts underscores between digits and non-ASCII decimal digits; those are not modelled.
- Dates.HeaderDate: `%Y` is always written with four digits. For years below 1000 the platform `strftime` may not pad. `main.py` only formats current dates.
- Dates.IsoDate: its length of ten rests on the same four-digit `%Y`, so it too is stated for padded years below 1000.
- The order date is always today plus one day, a row counts only with exactly three cells, and the whole stripped price text goes through `int()`.

## Findings

| source | as written | input that shows it | evidently intended | confidence | as-written member | corrected member |
|---|---|---|---|---|---|---|
| main.py:104 | the header is found by `target_date_string in text`, a plain substring test | tomorrow 1.11.2024 and a page whose first dated heading is "Pondělí 11.11.2024": "1.11.2024" occurs inside it, so the menu of 11 November is offered as tomorrow's instead of "not yet available" | the heading's date is tomorrow: the date string must not follow a digit or a dot | not executed; medium, since the wrong heading must come before tomorrow's on the page or tomorrow's must be missing | Menu.SubstringServesOtherDaysMenu | Menu.HeadingMatchesExactlyItsDate |
