/** The two enumerations of resource_types.py. They carry no behaviour of their own. */
module ResourceTypes {

  /** The kind of filesystem change an event reports. */
  datatype OpType = CREATED | DELETED | MODIFIED | MOVED

  /** Whether an event concerns a file or a directory. */
  datatype ResourceType = FILE | DIRECTORY
}
