/**
 * The rows the scraper writes and the item that travels from the spider to
 * the pipeline, shaped after the `raw_data` and `cleaned_data` tables.
 * Database-assigned ids are not stored in a row: a raw row's id is its
 * position in the table.
 */
module Records {
  import opened Wrappers
  import opened Json

  /** The dict a spider yields: `source_id`, `run_id`, `url` and `raw_content`. */
  datatype Item = Item(sourceId: Option<nat>, runId: Option<nat>, url: Option<string>, rawContent: Json)

  /** `raw_data.processing_status`. */
  datatype ProcessingStatus = Pending | Processed | Failed

  /** One `raw_data` row; `hash` is NULL for the error markers. */
  datatype RawRow = RawRow(
    sourceId: Option<nat>,
    runId: Option<nat>,
    url: Option<string>,
    rawContent: Json,
    hash: Option<string>,
    status: ProcessingStatus)

  /** `cleaned_data.validation_status`; the pipeline only ever writes `'valid'`. */
  datatype ValidationStatus = Valid

  /** The `address` JSONB column: `{'street': …, 'city': …}`. */
  datatype Address = Address(street: Json, city: Json)

  /** The `contact` JSONB column: `{'phone': …, 'hours': …}`. */
  datatype Contact = Contact(phone: Json, hours: Json)

  /** The `data_json` JSONB column: `{'page_number': …, 'subtitle': …, 'raw_html': …}`. */
  datatype Extra = Extra(pageNumber: Json, subtitle: Json, rawHtml: Json)

  /** One `cleaned_data` row. */
  datatype CleanedRow = CleanedRow(
    rawDataId: nat,
    sourceId: Option<nat>,
    name: Json,
    category: Json,
    address: Address,
    contact: Contact,
    dataJson: Extra,
    validationStatus: ValidationStatus)
}
