/** The exceptions the server code raises on its own. Driver and network failures
    (`SQLAlchemyError`) are not modelled: the driver's answers are inputs here. */
module Errors {

  datatype Error =
    /** `ValueError` from `get_engine`: neither the `url` argument nor `DB_URL` gives a non-empty string. */
    | UrlNotSet
    /** `TypeError` when `_get_table_info` subscripts the `None` that `_get_pk_constraint`
        returns for a table without key parts. */
    | NoneNotSubscriptable
    /** `AttributeError` when `_get_columns` calls `.find` on a NULL `COL_CHECK`. */
    | NoneHasNoFind
    /** `TypeError` when `podbc_filter_table_names` evaluates `q in` a NULL `TABLE_NAME`. */
    | NoneNotIterable
}
