# Electric products: CSV ingestion, modelled in Dafny

This project models the CSV-to-database ingestion pipeline of the electric-products catalogue
service and proves properties of it. It has three layers.

- **Field parsing** (`DataParser`).
  - string cleaning;
  - the yes-word boolean vocabulary;
  - the digit-filtering integer parser;
  - the comma-to-point decimal parser;
  - barcode-list splitting;
  - the three row mappers that turn a CSV row (column name to text) into product, price and stock payloads.
- **Payload validation** (`Schemas`). The pydantic field constraints and defaults of the product, description, online, barcode, price, stock and update schemas.
- **Reconciliation loops.** Each runs over an abstract store through an abstract SQLAlchemy session (`Store`). There are four:
  - the product import with per-row isolation (`AddProducts`);
  - the price upsert loop (`AddPrices`);
  - the per-warehouse stock loop (`AddProductStocks`);
  - the older product and price loops, which abort the whole run on any error (`LegacyImport`).

## The store and the session

`Store.Db` keeps the tables by their keys:
- products by code;
- description, online and dimensions rows, which refer to a product;
- barcodes, unique, each mapped to its product;
- one price record per product code;
- stock records keyed by (product code, warehouse id);
- the older one-per-product stock table;
- the warehouses.

`Store.Session` is a class with four fields:
- the committed store;
- the transaction's store;
- the objects added but not yet flushed;
- an `inactive` flag.

The session is opened with `autoflush=False`:
- `add` only queues an object;
- `flush` inserts the queue in order, all or nothing;
- a failed flush, commit or statement leaves the session unusable until `rollback`;
- `rollback` returns to the last commit;
- `execute` of an upsert runs at once and fails when the product is missing (foreign key).

Every state-changing method is specified by a function on the session state (`Added`, `Flushed`, `CommitT`, `RolledBack`, `Executed`). The loops are methods that open their own session. Each loop is proved equal to a whole-run function (`RunUpTo`, `Import`), and the lemmas are stated about those functions.

## Inputs the model takes as parameters

- **Rows.** They are given as sequences of `(column, text)` pairs with distinct columns, in file order, which is what `csv.DictReader` yields.
- **Faults.** `seq<Fault>` or `seq<RowFault>` names, per row, an error the model does not compute:
  - a value too wide for its column;
  - a numeric precision overflow (`DataError`);
  - a `None` cell in a short row;
  - any other unexpected exception.

  All integrity errors that the keys decide are computed, not injected:
  - a duplicate product code;
  - a taken barcode;
  - a missing product;
  - a duplicate (product, warehouse) pair;
  - an unknown warehouse id.

## Where the code and its design disagree

- **Missing schema classes.** `ProductPricesSchema` and `ProductStockSchema` are imported but do not exist in src/products/schemas.py. `ProductPricesBase` and `ProductStockBase` stand in for them.
- **Price key column.** The price upsert of add_prices.py:41-47 writes and targets `product_code`, but the price table's key column is `code` (src/products/models.py:101). As written, `insert(ProductPrices).values(product_code=…)` names a column the class does not have, which SQLAlchemy refuses when it compiles the statement. Every price row would then end in the generic `Exception` handler (add_prices.py:80-86): one error, a rollback, and no price stored. The model reads the column as the product-code key instead, so prices are keyed by product code.
- **Stock columns.** The newer stock loop writes `warehouse_id` and `reserved`. The ORM class `ProductStock` (src/products/models.py:118-129) has neither, so as written `ProductStock(warehouse_id=…, reserved=…)` (add_product_stocks.py:31-38) raises `TypeError`. The handler of add_product_stocks.py:50-51 only logs it, so no stock row is ever queued for a row with a warehouse column, and that row skips its periodic commit. These columns exist in the migration (alembic/versions/2025_08_21_1225-24a220989ec3_create_table_warehouses_remake_table_.py:36-38) but not in the ORM class. Stock rows get the migration's columns, and the (product, warehouse) pair is unique (line 52 of that migration).
- **Nullable tiers.** The price schema allows a missing tier (src/products/schemas.py:46-51), but the price table's tier columns are NOT NULL (src/products/models.py:106-111). The model follows the schema and stores the missing tier; the database as declared would refuse the row.
- **Older stock upsert.** The older price loop upserts `ProductStock` by `product_code` with `quantity` and `max_purchase`. That is the one-per-product table of src/products/models.py:118-129. It is modelled as `Db.summaries`.
- **Missing `async_session`.** The older loops import `async_session`, which database/base.py does not define. They are modelled with the `session_maker` session (database/base.py:14-19).
- **A malformed row can cost well-formed rows.** The per-row `try`/`except` of add_products.py:46-144 catches each row's error and goes on with the next row, so a bad row looks as if it costs only itself. In `add_data_products` of add_products.py, however, the rollback of an error discards the whole open batch. That batch includes products already counted as successes (`AddProducts.ErrorDiscardsCountedSuccess`).
- **Second runs.** A second import of the same file skips every row with a code, so its `skipped` counts rows, not products (`AddProducts.ProductImportIdempotent`). When a code repeats in the file, the second run's `skipped` is larger than the first run's `success`.
- **Validation errors.** A pydantic `ValidationError` is a `ValueError`. In the price loop, a row that fails validation is therefore counted in the `ValueError` branch, with no rollback.

## Model

| member | source | states |
|---|---|---|
| Common.Get | src/utils/parsing_data/data_parser.py:83-116 | dict.get. The result is None iff no cell has the column; otherwise it is a cell of that column. |
| Common.GetOr | src/utils/parsing_data/data_parser.py:83-89 | dict.get with a default. The default comes back only when the column is absent. |
| Common.OrNone | src/utils/parsing_data/data_parser.py:85 | `s or None`. None iff the string is empty; otherwise the string itself. |
| Common.GetFindsColumn | src/utils/parsing_data/data_parser.py:83 | Looking up a row's own column finds its cell. |
| Text.IsSpace | src/utils/parsing_data/data_parser.py:14 | No contract; the ASCII characters Python's `str.isspace` accepts (space, tab, line feed, carriage return, vertical tab, form feed and the four separators U+001C-U+001F). It decides what `Strip` removes; pinned by `StripPadded`, and through `Strip` by `StripSplits`. |
| Text.LeadingSpace | src/utils/parsing_data/data_parser.py:14 | The length of the whitespace prefix: all whitespace, and followed by a non-space. |
| Text.TrailingSpace | src/utils/parsing_data/data_parser.py:14 | The length of the whitespace suffix: all whitespace, and preceded by a non-space. |
| Text.Strip | src/utils/parsing_data/data_parser.py:14 | str.strip. The result has no outer whitespace and is no longer than the input. |
| Text.StripPadded | src/utils/parsing_data/data_parser.py:14 | Stripping whitespace padding from an unpadded middle gives the middle back. |
| Text.StripSplits | src/utils/parsing_data/data_parser.py:14 | Every string is whitespace, then its stripped form, then whitespace. |
| Text.StripIdempotent | src/utils/parsing_data/data_parser.py:14 | Stripping twice is stripping once. |
| Text.LowerChar | src/utils/parsing_data/data_parser.py:21 | No contract; `str.lower` of one character: ASCII and basic Cyrillic capitals map to their small letters, every other character to itself. Pinned by `DataParser.LowerMatchesWord`. |
| Text.Lower | src/utils/parsing_data/data_parser.py:21 | str.lower, character by character, with the same length. |
| Text.NatToDigits | src/utils/add_data_to_db/add_product_stocks.py:25 | The decimal text of a natural number is a non-empty digit string. |
| Text.DigitsRoundTrip | src/utils/add_data_to_db/add_product_stocks.py:25 | `int()` of the decimal text of n is n. |
| Text.DigitsValue | src/utils/add_data_to_db/add_product_stocks.py:25 | No contract; the value `int()` gives a string of decimal digits, most significant first. Pinned by `DigitsRoundTrip`, `LeadingZeros` and `ZerosValue`. |
| Text.DigitChar | src/utils/add_data_to_db/add_product_stocks.py:25 | The character for a digit value below 10 is a digit with that value. |
| Text.ZerosValue | src/utils/parsing_data/data_parser.py:34 | A run of zeros is a digit string of value 0. |
| Text.LeadingZeros | src/utils/parsing_data/data_parser.py:34 | Leading zeros do not change a digit string's value. |
| Text.KeepDigits | src/utils/parsing_data/data_parser.py:72 | The regex that deletes every non-digit leaves only digits and never lengthens. |
| Text.KeepDigitsAndMinus | src/utils/parsing_data/data_parser.py:31 | The regex that deletes all but digits and `-` leaves only those characters. |
| Text.KeepDigitsOfChar | src/utils/parsing_data/data_parser.py:72 | One character is kept iff it is a digit, and deleted otherwise. With `DataParser.KeepDigitsConcat` this fixes the filter on every string. |
| Text.KeepDigitsEmpty | src/utils/parsing_data/data_parser.py:72 | Nothing is left iff the text has no digit. |
| Text.KeepDigitsAndMinusOfChar | src/utils/parsing_data/data_parser.py:31 | One character is kept iff it is a digit or `-`, and deleted otherwise. With `KeepDigitsAndMinusConcat` this fixes the filter on every string. |
| Text.KeepDigitsAndMinusEmpty | src/utils/parsing_data/data_parser.py:31 | Nothing is left iff the text has neither a digit nor `-`. |
| Text.KeepDigitsAndMinusConcat | src/utils/parsing_data/data_parser.py:31 | That filter distributes over concatenation. |
| Text.KeepDigitsAndMinusIdempotent | src/utils/parsing_data/data_parser.py:31 | Filtering twice is filtering once. |
| Text.ReplaceChar | src/utils/parsing_data/data_parser.py:48 | str.replace of one character: same length, each position replaced iff it held that character. |
| Text.RemoveChar | src/utils/parsing_data/data_parser.py:48 | str.replace of a character by "": the character no longer occurs. |
| Text.RemoveCharConcat | src/utils/parsing_data/data_parser.py:48 | Deleting a character distributes over concatenation. |
| Text.RemoveCharAbsent | src/utils/parsing_data/data_parser.py:48 | Deleting a character that does not occur changes nothing. |
| DataParser.CleanStr | src/utils/parsing_data/data_parser.py:10-14 | `_clean_str`. None gives "". Otherwise the result is unpadded, and the input is the result between whitespace. |
| DataParser.CleanStrIdempotent | src/utils/parsing_data/data_parser.py:10-14 | Cleaning a cleaned string changes nothing. |
| DataParser.ParseBool | src/utils/parsing_data/data_parser.py:17-22 | `_parse_bool`. None gives false. Otherwise the result is true iff the trimmed text equals one of "1", "true", "yes", "y", "да", ignoring case. |
| DataParser.LowerMatchesWord | src/utils/parsing_data/data_parser.py:21-22 | The lower-cased text is in the word list iff the text equals a word ignoring case. |
| DataParser.ParseBoolIgnoresPaddingAndCase | src/utils/parsing_data/data_parser.py:17-22 | Neither padding nor letter case changes the flag. |
| DataParser.IsIntText | src/utils/parsing_data/data_parser.py:34 | No contract; the text `int()` accepts once only digits and `-` remain: digits, or one leading `-` then digits. `ParseInt` is Some exactly on it. |
| DataParser.IntTextValue | src/utils/parsing_data/data_parser.py:34 | No contract; the value `int()` gives such text: the digits' value, negated after a leading `-`. Pinned through `ParseInt` by `IntRoundTrip` and `NegativeIntRoundTrip`. |
| DataParser.ParseInt | src/utils/parsing_data/data_parser.py:25-36 | `_parse_int`. None or "" gives None. Otherwise the result is Some iff the digits-and-minus residue is an optional leading `-` and at least one digit, and its value is that residue's value. |
| DataParser.IntToText | src/utils/parsing_data/data_parser.py:34 | The decimal text of any integer is integer text. |
| DataParser.IntRoundTrip | src/utils/parsing_data/data_parser.py:25-36 | Parsing the decimal text of any integer gives it back. |
| DataParser.NegativeIntRoundTrip | src/utils/parsing_data/data_parser.py:25-36 | `-` followed by the digits of m > 0 parses to -m. |
| DataParser.ParseIntSeesOnlyDigitsAndMinus | src/utils/parsing_data/data_parser.py:31 | Only the digits and minus signs of a cell decide its parse. |
| DataParser.ParseIntThousands | src/utils/parsing_data/data_parser.py:31-34 | "1 000" parses to 1000. |
| DataParser.ParseIntDropsPoint | src/utils/parsing_data/data_parser.py:31-34 | "12.5" parses to 125: the point is deleted, not read. |
| DataParser.ParseIntMisplacedMinus | src/utils/parsing_data/data_parser.py:31-36 | "5-" and "-" give None (the `int()` ValueError). |
| DataParser.ParseIntNegative | src/utils/parsing_data/data_parser.py:31-34 | "-07" parses to -7. |
| DataParser.ParseIntNoDigits | src/utils/parsing_data/data_parser.py:31-33 | "abc" gives None (the residue is empty). |
| DataParser.IndexOf | src/utils/parsing_data/data_parser.py:54 | The position of the first occurrence of a character, or the length when there is none. |
| DataParser.NormalizeSeparators | src/utils/parsing_data/data_parser.py:48 | After commas become points and spaces are deleted, neither a space nor a comma is left. |
| DataParser.ParseDecimal | src/utils/parsing_data/data_parser.py:39-57 | `_parse_decimal`. None or "" gives None. Every other text is read after stripping and normalising (the lemmas that follow), and the function never raises. |
| DataParser.ParseDecimalOfCleaned | src/utils/parsing_data/data_parser.py:45-54 | The parse reads the stripped and normalised text. |
| DataParser.NormalizeConcat | src/utils/parsing_data/data_parser.py:48 | Normalising distributes over concatenation. |
| DataParser.NormalizeStripCommute | src/utils/parsing_data/data_parser.py:45-48 | Stripping then normalising equals normalising then stripping. |
| DataParser.NormalizeIdempotent | src/utils/parsing_data/data_parser.py:48 | Normalising twice is normalising once. |
| DataParser.ParseDecimalNormalForm | src/utils/parsing_data/data_parser.py:45-54 | A cell and its normalised form parse alike. |
| DataParser.SpaceIgnored | src/utils/parsing_data/data_parser.py:48 | A space anywhere in a decimal cell is ignored. |
| DataParser.CommaIsPoint | src/utils/parsing_data/data_parser.py:48 | A comma anywhere in a decimal cell reads as a point. |
| DataParser.PointedDecimal | src/utils/parsing_data/data_parser.py:54 | "w.f" (digits w, f) is the decimal with mantissa wf and scale \|f\|. |
| DataParser.NegatedDecimal | src/utils/parsing_data/data_parser.py:54 | A leading `-` negates the mantissa and keeps the scale. |
| DataParser.TwoPointsRejected | src/utils/parsing_data/data_parser.py:54-57 | Text with a second point gives None (InvalidOperation). |
| DataParser.DotDecimalExample | src/utils/parsing_data/data_parser.py:54 | "4500.00" parses to 4500.00 (mantissa 450000, scale 2). |
| DataParser.CommaDecimalExample | src/utils/parsing_data/data_parser.py:47-54 | "4 500,00" parses exactly like "4500.00". |
| DataParser.MixedSeparatorsExample | src/utils/parsing_data/data_parser.py:47-57 | "1,234.5" becomes "1.234.5" and gives None. |
| DataParser.UnsignedOfDigits | src/utils/parsing_data/data_parser.py:54 | Plain digits parse to an integer with scale 0. |
| DataParser.UnsignedOfPointed | src/utils/parsing_data/data_parser.py:54 | Non-empty digits, a point, and digits parse to the mantissa of all the digits, with the fraction's length as scale. |
| DataParser.FormatUnsigned | src/utils/parsing_data/data_parser.py:54 | A formatted unsigned decimal starts with a digit and has no space, comma or exponent. |
| DataParser.UnsignedDecimal | src/utils/parsing_data/data_parser.py:54 | No contract; `Decimal()` of text without sign or exponent: digits, at most one point, and at least one digit, as mantissa and scale. Pinned by `UnsignedOfDigits`, `UnsignedOfPointed` and `UnsignedRoundTrip`. |
| DataParser.DecimalText | src/utils/parsing_data/data_parser.py:54 | No contract; `Decimal()` of text without exponent: an optional `+` or `-`, then an unsigned decimal; `-` negates the mantissa. Pinned by `TwoPointsRejected`, and through `ParseDecimal` by `NegatedDecimal` and `DecimalRoundTrip`. |
| DataParser.UnsignedRoundTrip | src/utils/parsing_data/data_parser.py:54 | Parsing a formatted unsigned decimal gives back its mantissa and scale. |
| DataParser.PlainTextIsClean | src/utils/parsing_data/data_parser.py:45-54 | Neither stripping nor normalising changes formatted text. |
| DataParser.DecimalRoundTrip | src/utils/parsing_data/data_parser.py:39-57 | Parsing the text of any decimal (sign, digits, point, fraction) gives it back. |
| DataParser.FirstSeparator | src/utils/parsing_data/data_parser.py:68 | The position of the first barcode separator; no separator comes before it. |
| DataParser.SplitOnSeparators | src/utils/parsing_data/data_parser.py:68 | `re.split` on runs of `\n`, `\r`, `,`, `;`. There is at least one token, and no token holds a separator. |
| DataParser.SplitAtRun | src/utils/parsing_data/data_parser.py:68 | A whole run of separators cuts exactly once. |
| DataParser.SplitWithoutSeparator | src/utils/parsing_data/data_parser.py:68 | Text without a separator is one token. |
| DataParser.SplitPiecesAreShort | src/utils/parsing_data/data_parser.py:68 | No token is longer than the text. |
| DataParser.BarcodeOfToken | src/utils/parsing_data/data_parser.py:69-74 | A kept token yields its digits, which are non-empty. |
| DataParser.NanTokenDropped | src/utils/parsing_data/data_parser.py:70 | A token that trims to "nan" in any case is dropped. |
| DataParser.NanLiteralDropped | src/utils/parsing_data/data_parser.py:70 | The token "nan" is dropped. |
| DataParser.BlankTokenDropped | src/utils/parsing_data/data_parser.py:70 | A blank token is dropped. |
| DataParser.PaddedDigitToken | src/utils/parsing_data/data_parser.py:69-74 | A padded digit token yields its digits. |
| DataParser.DigitTokenKept | src/utils/parsing_data/data_parser.py:69-74 | A digit token is kept unchanged. |
| DataParser.DigitsAreNotNan | src/utils/parsing_data/data_parser.py:70 | A digit string is never "nan". |
| DataParser.KeepDigitsConcat | src/utils/parsing_data/data_parser.py:72 | Deleting non-digits distributes over concatenation. |
| DataParser.KeepDigitsOfPadded | src/utils/parsing_data/data_parser.py:72 | Deleting non-digits from padded digits gives the digits. |
| DataParser.KeepBarcodes | src/utils/parsing_data/data_parser.py:68-74 | The kept barcodes are all-digit and no more numerous than the tokens. |
| DataParser.KeepBarcodesConcat | src/utils/parsing_data/data_parser.py:68-74 | Tokens are kept in order: the barcodes of a + b are those of a, then those of b. |
| DataParser.BarcodesComeFromTokens | src/utils/parsing_data/data_parser.py:68-74 | Every barcode is the digits of some token. |
| DataParser.BarcodeList | src/utils/parsing_data/data_parser.py:60-76 | `_parse_barcodes`. "" gives []. Every barcode is non-empty digits, no longer than the input, and there are no more barcodes than tokens. Duplicates are not removed. |
| DataParser.ParseBarcodes | src/utils/parsing_data/data_parser.py:60-76 | The loop with `append` computes exactly `BarcodeList`. |
| DataParser.SplitShapeTail | src/utils/parsing_data/data_parser.py:68 | For digit strings c and d, "c\nnan,,d" splits into c, "nan", d. |
| DataParser.SplitShapeMiddle | src/utils/parsing_data/data_parser.py:68 | " b;" followed by text starting with a digit splits off the token " b", then splits the rest. |
| DataParser.SplitShapeHead | src/utils/parsing_data/data_parser.py:68 | "a, b;" followed by such text splits off a and " b", then splits the rest. |
| DataParser.SplitShape | src/utils/parsing_data/data_parser.py:68 | "a, b;c\nnan,,d" splits into a, " b", c, "nan", d. |
| DataParser.KeepShape | src/utils/parsing_data/data_parser.py:69-74 | Those tokens keep a, b, c, d. |
| DataParser.BarcodeListShape | src/utils/parsing_data/data_parser.py:60-76 | "a, b;c\nnan,,d" gives [a, b, c, d] for any digit strings, so "123, 456;789\nnan,,000" gives ["123","456","789","000"]. |
| DataParser.OptionalText | src/utils/parsing_data/data_parser.py:85 | `_clean_str(...) or None` is never Some(""), and is unpadded. |
| DataParser.ParseProductData | src/utils/parsing_data/data_parser.py:78-124 | `parse_product_data`. The code, name and full name are unpadded. Article, comment, main property and shop name are never "". Every barcode is digits. |
| DataParser.ParsePriceData | src/utils/parsing_data/data_parser.py:126-138 | `parse_price_data`. The code is unpadded and "" when its column is absent. An absent quantity column gives None. |
| DataParser.ParseStockData | src/utils/parsing_data/data_parser.py:141-147 | `parse_stock_data`. The code and warehouse are unpadded. An absent quantity gives 0; an empty one gives None. |
| DataParser.ProductDefaultsOnlyWhenAbsent | src/utils/parsing_data/data_parser.py:86-89 | "шт"/"Активный" apply only to an absent column; a blank column gives "". |
| DataParser.DefaultedCell | src/utils/parsing_data/data_parser.py:83-89 | A column with a default: absent gives the default, blank gives "". |
| DataParser.BlankOptionalTextIsNone | src/utils/parsing_data/data_parser.py:85-103 | A blank or absent optional text column becomes None. |
| DataParser.StockQuantityAbsentVersusBlank | src/utils/parsing_data/data_parser.py:145 | An absent `Количество` gives 0; a blank one gives None. |
| Schemas.RequiredStr | src/products/schemas.py:11-12 | A required string is accepted iff it is given and within its limit, and is kept unchanged. |
| Schemas.DefaultedStr | src/products/schemas.py:14-17 | An absent field takes its default; a given one is accepted iff within its limit. |
| Schemas.NullableStr | src/products/schemas.py:13 | An optional string is rejected iff it is a string over its limit; absent becomes None. |
| Schemas.NonNegativeDecimal | src/products/schemas.py:46-51 | An optional price is rejected iff it is negative; absent becomes None. |
| Schemas.DefaultedFlag | src/products/schemas.py:26-28 | An absent flag is false; a given one is kept. |
| Schemas.NonNegativeCount | src/products/schemas.py:58 | An absent quantity is 0. A given one is accepted iff it is a non-negative integer (None is rejected). |
| Schemas.ValidateProduct | src/products/schemas.py:8-17 | `ProductBase`. Accepted requires all of: the code is given with at most 20 characters; the name and full name are given with at most 500; the article has at most 100; the units have at most 20; the status has at most 50. When accepted, the fields are the given values or the defaults. |
| Schemas.ProductAcceptedIffValid | src/products/schemas.py:8-17 | A fully given product is accepted iff it satisfies `ValidProduct`, and then unchanged. |
| Schemas.ValidateDescription | src/products/schemas.py:20-22 | Accepted iff `main_property` has at most 200 characters; `comment` is unbounded. |
| Schemas.ValidateOnline | src/products/schemas.py:25-28 | Accepted iff the shop name has at most 500 characters. A given flag is kept and an absent one is false. The shop name is kept as given, and is None when absent. |
| Schemas.ValidateBarcode | src/products/schemas.py:38-39 | Accepted iff given with at most 50 characters. |
| Schemas.ValidatePrices | src/products/schemas.py:42-51 | `ProductPricesBase`. Accepted iff the code is given with at most 20 characters and no given tier is negative. The record holds the code and all six tiers as given; an absent tier is None. |
| Schemas.ValidatePricePayload | src/products/schemas.py:42-51 | A parsed price row is rejected iff its code is longer than 20 or a tier is negative. Otherwise it is the code and the six tiers. |
| Schemas.PriceHintsIgnored | src/products/schemas.py:43 | `extra="ignore"`: the row's quantity and max purchase do not affect price validation. |
| Schemas.NegativeRetailRejected | src/products/schemas.py:49 | A row whose retail cell is a negative decimal is rejected. |
| Schemas.ValidateStock | src/products/schemas.py:54-59 | `ProductStockBase`. Accepted iff the code is within 20 characters, a given quantity is a non-negative integer, and a given max purchase is not negative. An absent quantity is 0. |
| Schemas.ValidateStockPayload | src/products/schemas.py:54-59 | A parsed price row as a stock record. It is rejected iff the code is too long, the quantity is None or negative, or the max purchase is negative. |
| Schemas.MissingQuantityRejected | src/products/schemas.py:58 | A row whose quantity cell is absent or blank is rejected as a stock record. |
| Schemas.ValidateUpdate | src/products/schemas.py:152-158 | `ProductUpdate`. Every field is optional and bounded like `ProductBase`; the empty update is accepted. |
| Schemas.UpdateBoundsMatchProduct | src/products/schemas.py:152-158 | An update of a product's fields is accepted iff the product, code aside, is valid. |
| Store.ExtendsTransitive | src/products/models.py:20-94 | Adding rows, then adding more, adds rows. |
| Store.ExtendsKeepsHolds | src/products/models.py:20-94 | A row that is stored stays stored when rows are added. |
| Store.InsertedExtends | src/products/models.py:20-94 | An insert that breaks no key adds its row and keeps every other row. |
| Store.InsertedConsistent | src/products/models.py:51-94 | Such an insert keeps every foreign key valid. |
| Store.ApplyInsert | src/products/models.py:23-92 | An insert fails iff it breaks a key. The keys are: product code primary key; foreign key to the product; unique barcode; stock pair and warehouse id. |
| Store.ApplyInsertFacts | src/products/models.py:23-92 | A successful insert extends the store, holds its row, and keeps consistency. |
| Store.ApplyInserts | src/utils/add_data_to_db/add_products.py:72 | A flush of nothing succeeds as is; a flush whose first object breaks a key fails. |
| Store.ApplyInsertsFacts | src/utils/add_data_to_db/add_products.py:72 | A successful flush extends the store, holds every flushed row, and keeps consistency. |
| Store.ApplyUpsert | src/utils/add_data_to_db/add_prices.py:41-49 | An upsert fails iff the product is missing. Otherwise it sets exactly that code's record and changes no other table. |
| Store.ApplyUpsertConsistent | src/utils/add_data_to_db/add_prices.py:41-49 | A successful upsert keeps consistency. |
| Store.Session.constructor | database/base.py:14-19 | A new session's state is `Opened` of the store. |
| Store.Opened | database/base.py:14-19 | A new session: committed equals transaction, nothing pending, usable. |
| Store.Added | src/utils/add_data_to_db/add_products.py:71 | `add` only queues; the stores are untouched (`autoflush=False`). |
| Store.Flushed | src/utils/add_data_to_db/add_products.py:72 | `flush`. It fails on an unusable session. Otherwise it succeeds iff the queue inserts cleanly, which empties the queue. A failure leaves the session unusable. |
| Store.CommitT | src/utils/add_data_to_db/add_products.py:114 | `commit` is a flush, then the transaction becomes committed. A failed commit leaves the session unusable. |
| Store.RolledBack | src/utils/add_data_to_db/add_products.py:121 | `rollback` returns to the last commit, with nothing pending. |
| Store.Executed | src/utils/add_data_to_db/add_prices.py:49 | `execute(upsert)` runs at once. It succeeds iff the session is usable and the product exists. It does not flush the queue. |
| Store.Lookup | src/utils/add_data_to_db/add_products.py:58-61 | `select(Product)` finds the code iff the transaction holds it; it fails on an unusable session. |
| Store.Session.Add | src/utils/add_data_to_db/add_products.py:71 | The new state is `Added` of the old one. |
| Store.Session.Flush | src/utils/add_data_to_db/add_products.py:72 | The new state and the outcome are `Flushed` of the old state. |
| Store.Session.Commit | src/utils/add_data_to_db/add_products.py:114 | The new state and the outcome are `CommitT` of the old state. |
| Store.Session.Rollback | src/utils/add_data_to_db/add_products.py:121 | The new state is `RolledBack` of the old one. |
| Store.Session.Execute | src/utils/add_data_to_db/add_prices.py:49 | The new state and the outcome are `Executed` of the old state. |
| Store.Session.FindProduct | src/utils/add_data_to_db/add_products.py:58-61 | Some iff the session is usable, and then whether the transaction holds the code. |
| Store.FaultAt | src/utils/add_data_to_db/add_products.py:119-144 | Rows past the fault list raise nothing. |
| Store.CommitOfCleanSession | src/utils/add_data_to_db/add_prices.py:54 | Committing a usable session with nothing queued makes the transaction durable. |
| Store.SessionKeepsConsistency | src/products/models.py:51-94 | Flush, commit, execute and rollback keep both stores consistent. |
| AddProducts.BarcodeRows | src/utils/add_data_to_db/add_products.py:97-104 | One barcode object per parsed barcode, in order. |
| AddProducts.RelatedRows | src/utils/add_data_to_db/add_products.py:74-104 | The objects added after the product: exactly one each of description, online and dimensions (those dicts are always truthy), then the barcodes. |
| AddProducts.CollectRelatedRows | src/utils/add_data_to_db/add_products.py:74-104 | The `objects_to_add` loop builds exactly `RelatedRows`. |
| AddProducts.Failed | src/utils/add_data_to_db/add_products.py:119-144 | Every handler counts one error. All but `ValueError` also roll back. |
| AddProducts.Step | src/utils/add_data_to_db/add_products.py:46-144 | One row. See the list after this table. |
| AddProducts.StepNew | src/utils/add_data_to_db/add_products.py:69-117 | No contract; the new-product path: add and flush the product (a failure goes to the handler), queue the related rows, count the row, and commit when the total is a multiple of 50. Pinned by `AddNewProduct`, `Step`, `NewProductStored`, `DelayedBarcodeFailure` and `CleanNewProduct`. |
| AddProducts.RunUpTo | src/utils/add_data_to_db/add_products.py:45-144 | No contract; the loop after its first n rows, each row meeting its own fault. Pinned by `TotalIsSuccess`, `StoredRowsSkipped` and `CleanRun`. |
| AddProducts.Import | src/utils/add_data_to_db/add_products.py:38-147 | No contract; the loop over the parsed rows, then the final commit. `AddDataProducts` is proved equal to it; `StoredImportChangesNothing`, `FirstImportStoresEveryCode` and `ProductImportIdempotent` are stated against it. |
| AddProducts.Finish | src/utils/add_data_to_db/add_products.py:146-147 | The final commit. When it fails, the last committed store is what remains. |
| AddProducts.Payloads | src/utils/add_data_to_db/add_products.py:47 | Every row goes through `parse_product_data`. |
| AddProducts.ProcessRow | src/utils/add_data_to_db/add_products.py:46-144 | The loop body performs exactly `Step` on the session and counters. |
| AddProducts.AddNewProduct | src/utils/add_data_to_db/add_products.py:69-114 | The new-product path performs exactly `StepNew`. |
| AddProducts.AddDataProducts | src/utils/add_data_to_db/add_products.py:38-147 | The whole import returns exactly `Import` of the store, rows and faults. |
| AddProducts.TotalIsSuccess | src/utils/add_data_to_db/add_products.py:109-110 | `total_count` equals `success_count` after every row, and the session stays usable. |
| AddProducts.ImportTotalIsSuccess | src/utils/add_data_to_db/add_products.py:109-110 | The final counts have total equal to success. |
| AddProducts.ApplyInsertsConcat | src/utils/add_data_to_db/add_products.py:107 | Flushing two queues in a row is flushing their concatenation. |
| AddProducts.BarcodeMap | src/utils/add_data_to_db/add_products.py:97-104 | The barcode table rows of one product: keys are its barcodes, all mapped to it. |
| AddProducts.FreeBarcodesSplit | src/utils/add_data_to_db/add_products.py:97-104 | The barcodes are free iff the first is, and the rest are once it is taken. |
| AddProducts.BarcodeMapCons | src/utils/add_data_to_db/add_products.py:97-104 | Adding the first barcode, then the rest, is adding them all. |
| AddProducts.ApplyBarcodeRows | src/products/models.py:92 | The barcode objects insert iff all barcodes are free and distinct; they then add exactly their map. |
| AddProducts.ApplyRelatedRows | src/utils/add_data_to_db/add_products.py:74-107 | The related objects insert iff the barcodes are free. They then add one description, online and dimensions row, and the barcodes. |
| AddProducts.TakenBarcodeFailsFlush | src/products/models.py:92 | A queue holding an already stored barcode cannot be flushed. |
| AddProducts.NewProductStored | src/utils/add_data_to_db/add_products.py:69-147 | A new code with free barcodes counts 1/1/0/0. After the final commit, the store is the old one plus exactly the product, its description, online and dimensions rows, and its barcodes. |
| AddProducts.RepeatedCodeSkipped | src/utils/add_data_to_db/add_products.py:58-72 | The second row with a code is only skipped: the first was flushed before the lookup. |
| AddProducts.DelayedBarcodeFailure | src/utils/add_data_to_db/add_products.py:58-121 | A taken barcode is not noticed by its own row, which counts as a success. The next new product's flush fails instead; that row counts as an error, and the rollback discards both. |
| AddProducts.ErrorDiscardsCountedSuccess | src/utils/add_data_to_db/add_products.py:109-144 | An error after a counted success loses that product: the counts say 1 success, and the store ends as it began. |
| AddProducts.StoredRowsSkipped | src/utils/add_data_to_db/add_products.py:52-67 | When the store holds every code of the file, each row with a code only raises `skipped`, and the session stays as it was opened. |
| AddProducts.CodedRows | src/utils/add_data_to_db/add_products.py:52-67 | The number of rows with a code among the first n, which is at most n. |
| AddProducts.StoredRunChangesNothing | src/utils/add_data_to_db/add_products.py:45-147 | Such a run, with its final commit, leaves the store unchanged. Total, success and errors stay 0, and skipped is the number of rows with a code (`CodedRows`). |
| AddProducts.StoredImportChangesNothing | src/utils/add_data_to_db/add_products.py:38-147 | The same for the whole import of a file whose codes are all stored. |
| AddProducts.FlushNewProduct | src/utils/add_data_to_db/add_products.py:70-72 | Flushing a new code onto a queue that would flush adds exactly that product. |
| AddProducts.RelatedRowsKeepLaterBarcodesFree | src/utils/add_data_to_db/add_products.py:74-107 | When the file's barcodes are free and distinct (`FileBarcodesFree`: none is stored, and no two cells of the file are equal), a new product's related rows insert. They add no product and take no barcode of a later row. |
| AddProducts.CleanNewProduct | src/utils/add_data_to_db/add_products.py:69-117 | Under those conditions, the new-product path keeps the run clean. Clean (`CleanSoFar`) means: the session is usable, and its queue would flush without adding a product. Every code seen so far is in the transaction. No later row's barcode is taken. |
| AddProducts.CleanStep | src/utils/add_data_to_db/add_products.py:45-117 | Each fault-free row keeps the run clean. |
| AddProducts.FaultFreeStep | src/utils/add_data_to_db/add_products.py:45-144 | Without faults, row n of the loop meets no fault. |
| AddProducts.RunFromLast | src/utils/add_data_to_db/add_products.py:45-144 | The resumed loop's last step is the fault-free step of its last row. |
| AddProducts.CleanFrom | src/utils/add_data_to_db/add_products.py:45-117 | Resuming the fault-free loop (`RunFrom`, the same rows folded from a given state) from a clean state keeps it clean up to any later row. |
| AddProducts.RunFromStart | src/utils/add_data_to_db/add_products.py:45-117 | Folding the fault-free rows from the opened session gives the loop after the same rows. |
| AddProducts.CleanRun | src/utils/add_data_to_db/add_products.py:45-117 | A fault-free run over such a file is clean after every row. |
| AddProducts.FirstRunStoresEveryCode | src/utils/add_data_to_db/add_products.py:45-147 | After its final commit, such a run has stored every code of the file. |
| AddProducts.FirstImportStoresEveryCode | src/utils/add_data_to_db/add_products.py:38-147 | The same for the whole import. |
| AddProducts.ProductImportIdempotent | src/utils/add_data_to_db/add_products.py:38-147 | Insert-if-absent: importing such a file a second time, without faults, changes nothing. Every row with a code is skipped; there are no successes and no errors. |
| AddPrices.Failed | src/utils/add_data_to_db/add_prices.py:59-86 | Every handler counts one error. All but `ValueError` also roll back. |
| AddPrices.PriceRecordOf | src/utils/add_data_to_db/add_prices.py:34-39 | A row is upserted iff it validates and has a code; its record is the code and six tiers. |
| AddPrices.Step | src/utils/add_data_to_db/add_prices.py:28-86 | One row. See the list after this table. |
| AddPrices.StepUpsert | src/utils/add_data_to_db/add_prices.py:41-57 | No contract; the upsert of a validated row (a failure goes to the handler), `success` raised, a commit when `counter` is a positive multiple of 100, then `counter` raised. Pinned by `Step`. |
| AddPrices.RunUpTo | src/utils/add_data_to_db/add_prices.py:27-86 | No contract; the loop after its first n rows, each row meeting its own fault. Pinned by `CounterIsSuccess` and `CleanRunPrices`. |
| AddPrices.ImportParsed | src/utils/add_data_to_db/add_prices.py:27-89 | No contract; the loop over parsed rows, then the final commit. Pinned by `CleanImport`. |
| AddPrices.Import | src/utils/add_data_to_db/add_prices.py:21-89 | No contract; `ImportParsed` of the parsed rows. `AddDataPrices` is proved equal to it; `ImportIdempotent` is stated against it. |
| AddPrices.Finish | src/utils/add_data_to_db/add_prices.py:88-89 | The final commit. When it fails, the last committed store remains. |
| AddPrices.Payloads | src/utils/add_data_to_db/add_prices.py:29 | Every row goes through `parse_price_data`. |
| AddPrices.ProcessRow | src/utils/add_data_to_db/add_prices.py:28-86 | The loop body performs exactly `Step`. |
| AddPrices.AddDataPrices | src/utils/add_data_to_db/add_prices.py:21-89 | The whole run returns exactly `Import`. |
| AddPrices.CounterIsSuccess | src/utils/add_data_to_db/add_prices.py:50-57 | Whatever the faults, `counter` equals `success_count` after every row, nothing stays queued, and the session stays usable. |
| AddPrices.LastWins | src/utils/add_data_to_db/add_prices.py:41-49 | No contract; the reference price map of a file: for each code, the tiers of its last valid row with a code. `CleanRunPrices` proves a fault-free run stores exactly it; pinned by `LastWinsFromRows`, `LastRowWins` and `LastWinsAfter`. |
| AddPrices.LastWinsFromRows | src/utils/add_data_to_db/add_prices.py:41-49 | Every entry of the file's price map comes from some upserted row. |
| AddPrices.CleanStep | src/utils/add_data_to_db/add_prices.py:41-57 | A row of a clean run sets exactly its own code's tiers, or changes nothing. |
| AddPrices.OverlayUpdate | src/utils/add_data_to_db/add_prices.py:41-49 | Overlaying then setting a key is setting it in the overlay. |
| AddPrices.CleanRunPrices | src/utils/add_data_to_db/add_prices.py:27-57 | Without faults and with known codes (`KnownCodes`: the code of every row that would be upserted is a stored product), the transaction's prices are the old map overlaid with the file's last-wins map. Nothing else changes. |
| AddPrices.CleanImport | src/utils/add_data_to_db/add_prices.py:27-89 | The committed result is that overlay. |
| AddPrices.TraceStep | src/utils/add_data_to_db/add_prices.py:28-86 | A fault-free row moves the run as `TraceNext` moves its trace: the counters, the overlay committed so far and the open batch's overlay, whatever the codes. A row with an unknown code counts an error and drops the open batch. |
| AddPrices.RunFollowsTrace | src/utils/add_data_to_db/add_prices.py:27-86 | After n fault-free rows, with any codes, the committed prices are the old ones under the committed overlay, and the transaction adds the open batch. Nothing is queued, the session stays usable, and only prices change. |
| AddPrices.ImportFollowsTrace | src/utils/add_data_to_db/add_prices.py:27-89 | The final commit stores the old prices under the surviving overlay, and nothing else changes. |
| AddPrices.ImportIdempotent | src/utils/add_data_to_db/add_prices.py:27-89 | Importing the same file again leaves the store unchanged, whatever its codes. Rows with an unknown code fail and roll back their batch on both passes alike, so the same overlay survives, and overlaying it twice is overlaying it once. |
| AddPrices.LastRowWins | src/utils/add_data_to_db/add_prices.py:41-49 | For a repeated code, the last upserted row's tiers are kept. |
| AddPrices.LastWinsAfter | src/utils/add_data_to_db/add_prices.py:41-49 | A row's tiers survive every later row with another code. |
| AddProductStocks.CountCell | src/utils/add_data_to_db/add_product_stocks.py:25-29 | No contract beyond its `nat` type; `int(v.strip())` when the stripped text is all digits, otherwise 0. Pinned by `CountCellRoundTrip`, `SignedCellIsZero` and `BlankCellIsZero`. |
| AddProductStocks.CountCellRoundTrip | src/utils/add_data_to_db/add_product_stocks.py:24-29 | A padded decimal count reads as its value. |
| AddProductStocks.SignedCellIsZero | src/utils/add_data_to_db/add_product_stocks.py:25 | A signed cell such as "-3" reads as 0. |
| AddProductStocks.BlankCellIsZero | src/utils/add_data_to_db/add_product_stocks.py:25 | A blank cell reads as 0. |
| AddProductStocks.WarehouseMapping | src/utils/add_data_to_db/add_product_stocks.py:17 | No contract; the name-to-id dict comprehension over the warehouses in table order. Pinned by `MappingKeys`, `MappingLastWins` and `MappingValues`. |
| AddProductStocks.MappingKeys | src/utils/add_data_to_db/add_product_stocks.py:17 | The name-to-id map has exactly the warehouses' names as keys. |
| AddProductStocks.MappingLastWins | src/utils/add_data_to_db/add_product_stocks.py:17 | A name not repeated later maps to its own warehouse's id. With unique names (src/warehouses/models.py:16), that is every warehouse. |
| AddProductStocks.MappingValues | src/utils/add_data_to_db/add_product_stocks.py:17 | Every value is the id of a warehouse with that name. |
| AddProductStocks.ColumnRecord | src/utils/add_data_to_db/add_product_stocks.py:26-38 | No contract; one cell: a stock row with the row's code, the mapped warehouse id, the cell's count and `reserved` for a warehouse column, nothing for any other. Pinned by `ColumnRecordIn`. |
| AddProductStocks.StockRecords | src/utils/add_data_to_db/add_product_stocks.py:26-38 | No contract; the records of a row's cells in column order. Pinned by `StockRecordsConcat`, `StockRecordsFromColumns`, `StockRecordsCoverColumns` and `NoWarehouseColumnsNoRecords`. |
| AddProductStocks.StockRecordsConcat | src/utils/add_data_to_db/add_product_stocks.py:26-38 | Records keep column order: the records of a + b are those of a, then those of b. |
| AddProductStocks.StockRecordsFromColumns | src/utils/add_data_to_db/add_product_stocks.py:23-38 | Every record has the row's code and `reserved` and a mapped warehouse id, and comes from a warehouse column. |
| AddProductStocks.ColumnRecordIn | src/utils/add_data_to_db/add_product_stocks.py:26-38 | A cell's record is among its row's records. |
| AddProductStocks.StockRecordsCoverColumns | src/utils/add_data_to_db/add_product_stocks.py:26-38 | Every warehouse column gives its record, with the cell's count. |
| AddProductStocks.NoWarehouseColumnsNoRecords | src/utils/add_data_to_db/add_product_stocks.py:26-27 | A row with no warehouse column gives no record. |
| AddProductStocks.ReadRow | src/utils/add_data_to_db/add_product_stocks.py:23-26 | A row's cells are read in their own order. |
| AddProductStocks.ReadRows | src/utils/add_data_to_db/add_product_stocks.py:21-23 | The rows are read one by one, in file order. |
| AddProductStocks.CellsHandled | src/utils/add_data_to_db/add_product_stocks.py:26-51 | A row that does not raise handles every cell. A row that raises at a column handles the cells before it. |
| AddProductStocks.Effect | src/utils/add_data_to_db/add_product_stocks.py:21-49 | A row commits iff it did not raise and its index is a multiple of 100. A row that did not raise queues all its records. |
| AddProductStocks.Effects | src/utils/add_data_to_db/add_product_stocks.py:15-21 | Every row uses the one map built from the store's warehouses before the loop. |
| AddProductStocks.Step | src/utils/add_data_to_db/add_product_stocks.py:26-51 | One row. Without a commit it only queues. The committed store changes only at a commit. A committing row on a usable session whose queue flushes commits: the committed store and the transaction both become the flushed queue. A committing row whose queue breaks a key leaves the session unusable with the committed store as it was. After a failed commit nothing is ever committed again: there is no rollback. |
| AddProductStocks.Queued | src/utils/add_data_to_db/add_product_stocks.py:26-38 | No contract; the records of the first n cells of a row, the cells handled before a raising cell. `QueueCells` queues exactly these records; pinned by `RaisingRowKeepsQueued`. |
| AddProductStocks.RunUpTo | src/utils/add_data_to_db/add_product_stocks.py:21-51 | No contract; the loop after its first n rows. Pinned by `LoopKeepsWarehouses`, `FailureIsFinal` and `FirstRowCommitted`. |
| AddProductStocks.ImportRead | src/utils/add_data_to_db/add_product_stocks.py:14-53 | No contract; the loop over the rows as read, with the map built once, then the final commit. Pinned by `ImportAfterFailure` and `FirstRowFailureLosesFile`. |
| AddProductStocks.Import | src/utils/add_data_to_db/add_product_stocks.py:13-53 | No contract; `ImportRead` of the read rows. `AddStockData` is proved equal to it. |
| AddProductStocks.Finish | src/utils/add_data_to_db/add_product_stocks.py:53 | The final commit. An unusable session ends with the last committed store and an error. |
| AddProductStocks.QueueCells | src/utils/add_data_to_db/add_product_stocks.py:26-38 | The inner loop queues exactly the records of the handled cells. |
| AddProductStocks.ProcessRow | src/utils/add_data_to_db/add_product_stocks.py:22-51 | The loop body performs exactly `Step` of the row's effect. |
| AddProductStocks.AddStockData | src/utils/add_data_to_db/add_product_stocks.py:14-53 | The whole run returns exactly `Import`. |
| AddProductStocks.LoopKeepsWarehouses | src/utils/add_data_to_db/add_product_stocks.py:15-21 | The loop never changes the warehouses, so the map stays the store's map. |
| AddProductStocks.StepKeepsWarehouses | src/utils/add_data_to_db/add_product_stocks.py:26-49 | One row leaves the warehouses unchanged. |
| AddProductStocks.FailureIsFinal | src/utils/add_data_to_db/add_product_stocks.py:48-51 | Once a commit fails, the session stays unusable and the committed store is frozen. |
| AddProductStocks.FailureLasts | src/utils/add_data_to_db/add_product_stocks.py:48-51 | A row on an unusable session leaves it unusable, with the same committed store. |
| AddProductStocks.ImportAfterFailure | src/utils/add_data_to_db/add_product_stocks.py:48-53 | The import then ends with that store and an error. |
| AddProductStocks.StoredPairFailsFlush | alembic/versions/2025_08_21_1225-24a220989ec3_create_table_warehouses_remake_table_.py:52 | Records are plain inserts. A queued pair that is already stored makes the flush fail. |
| AddProductStocks.FirstRowFailureLosesFile | src/utils/add_data_to_db/add_product_stocks.py:48-53 | If the first row's commit fails, the whole file is lost and the store is unchanged. |
| AddProductStocks.FirstRowCommitted | src/utils/add_data_to_db/add_product_stocks.py:48-49 | If the first row's records fit, they are committed on their own, right after it. |
| AddProductStocks.RaisingRowKeepsQueued | src/utils/add_data_to_db/add_product_stocks.py:26-51 | A row raising part-way keeps its earlier records queued, without rollback or commit. |
| LegacyImport.Abort | src/utils/parsing_data/add_data_to_db.py:91-94 | An exception rolls back to the last commit and leaves the loop. |
| LegacyImport.Finish | src/utils/parsing_data/add_data_to_db.py:88-94 | The run completes iff it was not aborted and the final commit succeeds. Otherwise the last committed store remains. |
| LegacyImport.ProductStep | src/utils/parsing_data/add_data_to_db.py:42-86 | One product row. See the list after this table. |
| LegacyImport.ProcessProductRow | src/utils/parsing_data/add_data_to_db.py:43-86 | The loop body performs exactly `ProductStep`. |
| LegacyImport.ProductNew | src/utils/parsing_data/add_data_to_db.py:56-86 | No contract; the new-product path of the older loop: add and flush the product, add the related rows, raise the count, commit when it is a multiple of 100; any failure aborts. Pinned by `AddProduct`, `ProductStep` and `NewProductCounted`. |
| LegacyImport.ProductsUpTo | src/utils/parsing_data/add_data_to_db.py:42-86 | No contract; the product loop after its first n rows. Pinned by `ProductAbortIsFinal`, `ProductSessionUsable` and `ProductFailureKeepsCommitted`. |
| LegacyImport.ImportProductsParsed | src/utils/parsing_data/add_data_to_db.py:39-94 | No contract; the product loop over parsed rows, then the final commit. |
| LegacyImport.ImportProducts | src/utils/parsing_data/add_data_to_db.py:39-94 | No contract; `ImportProductsParsed` of the parsed rows. `AddDataProducts` is proved equal to it. |
| LegacyImport.AddProduct | src/utils/parsing_data/add_data_to_db.py:56-86 | The new-product path performs exactly `ProductNew`. |
| LegacyImport.NewProductCounted | src/utils/parsing_data/add_data_to_db.py:56-86 | A new code with free barcodes, on a clean session, is counted. When the count reaches a multiple of 100, the batch is committed; otherwise the committed store is unchanged. |
| LegacyImport.AddDataProducts | src/utils/parsing_data/add_data_to_db.py:39-94 | The whole run returns exactly `ImportProducts`. |
| LegacyImport.ProductAbortIsFinal | src/utils/parsing_data/add_data_to_db.py:39-94 | After an abort, no later row changes anything. |
| LegacyImport.ProductSessionUsable | src/utils/parsing_data/add_data_to_db.py:39-94 | The product run's session is always usable. |
| LegacyImport.ProductFailureKeepsCommitted | src/utils/parsing_data/add_data_to_db.py:84-94 | The run ends with the last committed batch when row n aborts. |
| LegacyImport.EmptyCodeInserted | src/utils/parsing_data/add_data_to_db.py:43-56 | An empty code is inserted and counted, whereas the newer loop skips that row. |
| LegacyImport.PriceStep | src/utils/parsing_data/add_data_to_db.py:103-134 | One price row. Once aborted, nothing changes. An abort keeps the count and returns to the last commit. The committed store changes only when the count, before it moves, is a multiple of 100. Conversely, a row that goes through at such a count is committed with its batch. |
| LegacyImport.PriceUpserts | src/utils/parsing_data/add_data_to_db.py:112-134 | No contract; the stock upsert, then the price upsert, then a commit when the count is a multiple of 100, then the count raised; any failure aborts. Pinned by `PriceStep` and `PriceRowOutcomes`. |
| LegacyImport.PricesUpTo | src/utils/parsing_data/add_data_to_db.py:103-134 | No contract; the price loop after its first n rows. Pinned by `PriceAbortIsFinal` and `MissingQuantityEndsRun`. |
| LegacyImport.ImportPricesParsed | src/utils/parsing_data/add_data_to_db.py:100-142 | No contract; the price loop over parsed rows, then the final commit. |
| LegacyImport.ImportPrices | src/utils/parsing_data/add_data_to_db.py:100-142 | No contract; `ImportPricesParsed` of the parsed rows. `AddDataPrices` is proved equal to it; `MissingQuantityEndsRun` is stated against it. |
| LegacyImport.PriceRowOutcomes | src/utils/parsing_data/add_data_to_db.py:104-134 | See the list after this table. |
| LegacyImport.PricePayloads | src/utils/parsing_data/add_data_to_db.py:104 | Every row goes through `parse_price_data`. |
| LegacyImport.ProcessPriceRow | src/utils/parsing_data/add_data_to_db.py:104-134 | The loop body performs exactly `PriceStep`. |
| LegacyImport.AddDataPrices | src/utils/parsing_data/add_data_to_db.py:100-142 | The whole run returns exactly `ImportPrices`. |
| LegacyImport.PriceAbortIsFinal | src/utils/parsing_data/add_data_to_db.py:100-142 | After an abort, no later price row changes anything. |
| LegacyImport.MissingQuantityEndsRun | src/utils/parsing_data/add_data_to_db.py:104-142 | A row with an absent or blank quantity ends the run with the last committed store. |
| LegacyImport.FirstPriceRowCommitted | src/utils/parsing_data/add_data_to_db.py:128-134 | The first valid price row is committed at once, with exactly its price and summary. |

What some contracts in the table state:

- **AddProducts.Step**
  - a row without a code changes nothing;
  - total and success move together, by at most one;
  - a code the open transaction already holds is skipped, and a skip only raises `skipped`;
  - a `ValueError` only raises `errors`;
  - any other error leaves the session at the last commit;
  - the committed store changes exactly when the total reaches a multiple of 50;
  - the session stays usable.
- **AddPrices.Step**
  - a row failing validation only raises `errors`;
  - a row without a code changes nothing;
  - the committed store changes only when `counter`, before it moves, is a positive multiple of 100;
  - another error returns to the last commit;
  - an unknown code is a counted integrity error;
  - a successful row sets exactly its code's six tiers, and raises `counter` and `success` by one;
  - conversely, a row that moves `counter` from a positive multiple of 100 has committed everything. So a successful row at that point commits the transaction.
- **LegacyImport.ProductStep**
  - once aborted, nothing changes;
  - an abort returns to the last commit;
  - an existing code is skipped and not counted;
  - the count rises by at most one, and only for a new code;
  - the committed store changes only when the count reaches a multiple of 100;
  - conversely, a new product that brings the count to a multiple of 100 is committed with its batch.
- **LegacyImport.PriceRowOutcomes**
  - a row that the price schema or the stock schema rejects ends the run;
  - so does an unknown code;
  - a row that goes through overwrites exactly the product's price record and its stock record. It is committed at once when the count was a multiple of 100.

## Left out

- **Reading the CSV.** src/utils/parsing_data/read_data_from_csv.py and src/utils/parse_data.py open the file, decode windows-1251 and parse the dialect. The model takes the rows as given. The `os.path.exists`/`os.walk` checks for a missing file are not modelled.
- **The exponent branch of `_parse_decimal`** (data_parser.py:51-52) goes through `float`. The model returns None for any text with `e` or `E`. It also returns None for `Decimal`'s `Infinity`, `NaN` and underscore forms.
- **Unicode.** Whitespace, digits and lower case are ASCII (plus the basic Cyrillic capitals for `lower`). Python's Unicode `\d`, `isdigit` and `strip` sets are wider.
- **Logging, `print`, `traceback`, async and module-level `asyncio.run`.** None of them changes the data. src/utils/add_data_to_db/add_main_file.py only runs the stock loop on a data module (files.warehouses_data) that is not part of this model, so the stock rows are a parameter.
- **The outer `SQLAlchemyError`/`PostgresError`/`Exception` handlers.** Their rollback is the same as the final-commit failure path: the store keeps its last commit.
- **Column widths and integer overflow.** The database would reject these with `DataError`. They are not computed. In the product, price and older loops a fault is injected per row, and it replaces only that row's first statement (`Store.Fault`). Three `DataError`s cannot occur in the model. One is the `DataError` of a periodic commit (add_products.py:114, add_prices.py:54, add_data_to_db.py:86 and 132). Another is that of a final commit (add_products.py:147, add_prices.py:89, add_data_to_db.py:88 and 136). The third is that of a stock commit (add_product_stocks.py:49 and 53), for example a count above 2^31 - 1 in an `Integer` column. This applies to AddProducts.Step, AddProducts.Finish, AddPrices.Step, AddPrices.Finish, LegacyImport.ProductStep, LegacyImport.PriceStep, LegacyImport.Finish, AddProductStocks.Step and AddProductStocks.Finish.
- **AddPrices.Step and LegacyImport.PriceStep: blank price tiers.** Only key constraints are modelled: the product-code keys, barcode uniqueness, the unique (product, warehouse) pair and the references to a product. The six tier columns are declared `Mapped[Decimal]` (src/products/models.py:106-111), so they are NOT NULL, while the price schema lets each tier be None (src/products/schemas.py:46-51). A row with a blank tier would make the upsert raise `IntegrityError` (add_prices.py:49, counted with a rollback) and would end the older loop (add_data_to_db.py:129). The model stores the None instead. So, with the `DataError`s above, a statement or commit in the model fails only by a key violation or an injected fault.
- **AddPrices.Step: decimal rounding.** The `NUMERIC(10, 2)` and `DECIMAL(10, 2)` columns (src/products/models.py:79-82 and 106-111) round a value with more than two fraction digits. Only too many integer digits raise. The model stores the parsed value as it is, without rounding. This also applies to LegacyImport.PriceStep, to the dimensions rows of AddProducts.StepNew and LegacyImport.ProductNew, and to the lemmas that name the stored tiers.
- **DataParser.ParseInt: very long numbers.** Python's `int()` raises `ValueError` for text of more than 4300 digits (the default `sys.set_int_max_str_digits` limit). The model parses any length.
- **AddProductStocks.CountCell: very long numbers.** The same 4300-digit limit of `int()` is not modelled.
- **Insert ordering.** The unit of work orders inserts by table dependency. The model flushes objects in the order they were added, checks each key as it goes, and treats a failure as all or nothing.
- **Pydantic error details.** Only whether a payload is accepted is modelled, not the error list.
- **`model_dump(exclude_unset=True)`.** The mappers always pass every key, so nothing is unset and the dump is the whole record.
- **Warehouse seeding** (src/utils/add_data_to_db/add_warehouses.py). Its data module is not part of this model. The warehouses are part of the given store.
- **The HTTP layer, services and settings.** These are src/products/routers.py, router.py, services.py, src/main.py and src/config.py.
- **AddProductStocks.Step: a `None` cell.** A `None` cell in a short row raises in `strip`. It is modelled as an injected `RaisesAt(column)` fault, not computed from the row.
- **AddProductStocks.Finish: a failed final commit.** The exception escapes the function. The model records it as the outcome `Raised(OtherError)`.
- **LegacyImport.Finish: the count after an abort.** The count is the value reached before the aborting row. After an abort, `add_data_products` of add_data_to_db.py prints nothing further.
