/**
 * The WordPress functions the importer calls and does not define. Each is a
 * parameter of the model: nothing here says how WordPress implements them,
 * only where the importer passes their results on.
 */
module WordPress {
  import opened PhpValue

  /** What `wp_insert_post($post_data, true)` returns: a post id or a WP_Error. */
  datatype InsertResult = Inserted(postId: int) | InsertFailed(message: string)

  datatype Host = Host(
    /** sanitize_text_field */
    sanitizeTextField: Value -> string,
    /** sanitize_key */
    sanitizeKey: Value -> string,
    /** wp_kses_post */
    ksesPost: Value -> string,
    /** esc_html */
    escHtml: Value -> string,
    /** sanitize_file_name */
    sanitizeFileName: string -> string,
    /** is_numeric on a string array key */
    isNumericString: string -> bool,
    /** absint on a numeric string array key */
    absintString: string -> nat,
    /** strtotime: a Unix timestamp, or None for false */
    strToTime: Value -> Option<int>,
    /** gmdate('Y-m-d H:i:s', $timestamp) */
    gmDate: int -> string,
    /** get_date_from_gmt($gmt, 'Y-m-d H:i:s') */
    dateFromGmt: string -> string,
    /** the keys of get_post_stati() */
    postStati: set<string>,
    /** get_current_user_id() */
    currentUserId: int,
    /** wp_insert_post($post_data, true) */
    insertPost: Value -> InsertResult
  )
}
